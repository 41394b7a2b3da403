/** Sorting as Python's `sorted` does it, and what a sorted list is worth. */
module Ordering {

  /** `leq` puts any three things in one order. */
  ghost predicate Orders<T(!new)>(leq: (T, T) -> bool) {
    && (forall x, y :: leq(x, y) || leq(y, x))
    && (forall x, y, z :: leq(x, y) && leq(y, z) ==> leq(x, z))
  }

  ghost predicate Sorted<T>(leq: (T, T) -> bool, s: seq<T>) {
    forall i, j :: 0 <= i < j < |s| ==> leq(s[i], s[j])
  }

  /** Puts `x`, which came first, before everything it may precede. */
  function InsertBy<T>(leq: (T, T) -> bool, x: T, s: seq<T>): seq<T> {
    if s == [] || leq(x, s[0]) then [x] + s else [s[0]] + InsertBy(leq, x, s[1..])
  }

  /** A stable sort. */
  function SortBy<T>(leq: (T, T) -> bool, s: seq<T>): seq<T> {
    if s == [] then [] else InsertBy(leq, s[0], SortBy(leq, s[1..]))
  }

  lemma {:induction false} InsertByElements<T>(leq: (T, T) -> bool, x: T, s: seq<T>)
    ensures multiset(InsertBy(leq, x, s)) == multiset(s) + multiset{x}
  {
    if s == [] || leq(x, s[0]) {
    } else {
      InsertByElements(leq, x, s[1..]);
      assert s == [s[0]] + s[1..];
    }
  }

  lemma {:induction false} InsertBySorts<T(!new)>(leq: (T, T) -> bool, x: T, s: seq<T>)
    requires Orders(leq) && Sorted(leq, s)
    ensures Sorted(leq, InsertBy(leq, x, s))
  {
    if s == [] || leq(x, s[0]) {
    } else {
      InsertBySorts(leq, x, s[1..]);
      InsertByElements(leq, x, s[1..]);
      var rest := InsertBy(leq, x, s[1..]);
      forall i | 0 <= i < |rest| ensures leq(s[0], rest[i]) {
        assert rest[i] in multiset(rest);
        assert rest[i] == x || rest[i] in s[1..];
      }
    }
  }

  lemma {:induction false} SortByElements<T>(leq: (T, T) -> bool, s: seq<T>)
    ensures multiset(SortBy(leq, s)) == multiset(s)
    ensures |SortBy(leq, s)| == |s|
  {
    if s != [] {
      SortByElements(leq, s[1..]);
      InsertByElements(leq, s[0], SortBy(leq, s[1..]));
      assert s == [s[0]] + s[1..];
    }
    assert |multiset(SortBy(leq, s))| == |SortBy(leq, s)| && |multiset(s)| == |s|;
  }

  /** Sorting sorts, and keeps exactly what was there. */
  lemma {:induction false} SortBySorts<T(!new)>(leq: (T, T) -> bool, s: seq<T>)
    requires Orders(leq)
    ensures Sorted(leq, SortBy(leq, s))
    ensures multiset(SortBy(leq, s)) == multiset(s)
    ensures |SortBy(leq, s)| == |s|
    ensures forall x :: x in SortBy(leq, s) <==> x in s
  {
    if s != [] {
      SortBySorts(leq, s[1..]);
      InsertBySorts(leq, s[0], SortBy(leq, s[1..]));
    }
    hide Orders, Sorted;
    SortByElements(leq, s);
    forall x ensures x in SortBy(leq, s) <==> x in s {
      assert x in multiset(SortBy(leq, s)) <==> x in multiset(s);
    }
  }

  /** The order never calls two different elements of the list equal. */
  ghost predicate Strict<T(!new)>(leq: (T, T) -> bool, s: seq<T>) {
    forall x, y :: x in s && y in s && leq(x, y) && leq(y, x) ==> x == y
  }

  lemma HeadsAgree<T(!new)>(leq: (T, T) -> bool, a: seq<T>, b: seq<T>)
    requires Orders(leq) && Sorted(leq, a) && Sorted(leq, b) && Strict(leq, a)
    requires multiset(a) == multiset(b) && a != [] && b != []
    ensures a[0] == b[0]
  {
    assert b[0] in multiset(a) && a[0] in multiset(b);
    var i :| 0 <= i < |a| && a[i] == b[0];
    var j :| 0 <= j < |b| && b[j] == a[0];
    assert leq(a[0], a[0]) && leq(b[0], b[0]);
    assert leq(a[0], b[0]) && leq(b[0], a[0]);
  }

  lemma TailStaysSorted<T(!new)>(leq: (T, T) -> bool, s: seq<T>)
    requires Sorted(leq, s) && s != []
    ensures Sorted(leq, s[1..])
  {}

  /** There is only one way to sort what the order tells apart. */
  lemma {:induction false} SortedUnique<T(!new)>(leq: (T, T) -> bool, a: seq<T>, b: seq<T>)
    requires Orders(leq) && Sorted(leq, a) && Sorted(leq, b) && Strict(leq, a)
    requires multiset(a) == multiset(b)
    ensures a == b
  {
    assert |multiset(a)| == |a| && |multiset(b)| == |b|;
    if a != [] {
      HeadsAgree(leq, a, b);
      TailStaysSorted(leq, a);
      TailStaysSorted(leq, b);
      hide Orders, Sorted;
      assert a == [a[0]] + a[1..] && b == [b[0]] + b[1..];
      assert multiset(a[1..]) == multiset(a) - multiset{a[0]};
      assert multiset(b[1..]) == multiset(b) - multiset{b[0]};
      assert forall x :: x in a[1..] ==> x in a;
      SortedUnique(leq, a[1..], b[1..]);
    }
  }

  /** The sorted list does not depend on the order of the input. */
  lemma SortIgnoresOrder<T(!new)>(leq: (T, T) -> bool, s: seq<T>, t: seq<T>)
    requires Orders(leq) && Strict(leq, s) && multiset(s) == multiset(t)
    ensures SortBy(leq, s) == SortBy(leq, t)
  {
    SortBySorts(leq, s);
    SortBySorts(leq, t);
    SortedUnique(leq, SortBy(leq, s), SortBy(leq, t));
  }

  /** A list with one place taken out. */
  lemma WithoutOne<T>(s: seq<T>, j: nat)
    requires j < |s|
    ensures s == s[..j] + [s[j]] + s[j + 1..]
    ensures multiset(s[..j] + s[j + 1..]) == multiset(s) - multiset{s[j]}
    ensures |s[..j] + s[j + 1..]| == |s| - 1
  {
    assert s == s[..j] + [s[j]] + s[j + 1..];
    assert multiset(s) == multiset(s[..j]) + multiset{s[j]} + multiset(s[j + 1..]);
  }

  /** Where the last element of one list stands in a reordering of it. */
  lemma LastMatches<T>(a: seq<T>, b: seq<T>) returns (j: nat)
    requires multiset(a) == multiset(b) && a != []
    ensures j < |b| && b[j] == a[|a| - 1]
    ensures multiset(a[..|a| - 1]) == multiset(b[..j] + b[j + 1..])
    ensures a == a[..|a| - 1] + [a[|a| - 1]] && b == b[..j] + [b[j]] + b[j + 1..]
  {
    var n := |a| - 1;
    assert a[n] in multiset(b);
    j :| 0 <= j < |b| && b[j] == a[n];
    WithoutOne(a, n);
    WithoutOne(b, j);
    assert a[..n] + a[n + 1..] == a[..n];
  }

  lemma NothingMatchesNothing<T>(a: seq<T>, b: seq<T>)
    requires multiset(a) == multiset(b) && a == []
    ensures b == []
  {
    assert |multiset(b)| == |b|;
  }

  function FirstOnes<T>(s: seq<T>, k: nat): set<T>
    requires k <= |s|
  {
    set x | x in s[..k]
  }

  /** Different things are as many as their places. */
  lemma {:induction false} FirstOnesCount<T>(s: seq<T>, k: nat)
    requires k <= |s| && forall i, j :: 0 <= i < j < |s| ==> s[i] != s[j]
    ensures |FirstOnes(s, k)| == k
  {
    if k == 0 {
      assert FirstOnes(s, 0) == {};
    } else {
      FirstOnesCount(s, k - 1);
      assert s[..k] == s[..k - 1] + [s[k - 1]];
      assert FirstOnes(s, k) == FirstOnes(s, k - 1) + {s[k - 1]};
    }
  }

  function Before<T>(before: (T, T) -> bool, s: seq<T>, x: T): set<T> { set y | y in s && before(y, x) }

  /** In a list in strict order, as many things come before one as its place says. */
  lemma PlaceCounts<T(!new)>(before: (T, T) -> bool, s: seq<T>, i: nat)
    requires i < |s| && !before(s[i], s[i])
    requires forall j, k :: 0 <= j < k < |s| ==> s[j] != s[k] && before(s[j], s[k]) && !before(s[k], s[j])
    ensures |Before(before, s, s[i])| == i
  {
    FirstOnesCount(s, i);
    forall x ensures x in FirstOnes(s, i) <==> x in Before(before, s, s[i]) {
      if x in s {
        var j :| 0 <= j < |s| && s[j] == x;
        if j < i {
          assert s[..i][j] == x;
        }
      }
    }
    assert FirstOnes(s, i) == Before(before, s, s[i]);
  }

  // ---- integers ---------------------------------------------------------

  predicate Up(x: int, y: int) { x <= y }

  predicate Down(x: int, y: int) { x >= y }

  ghost predicate Increasing(s: seq<int>) {
    forall i, j :: 0 <= i < j < |s| ==> s[i] < s[j]
  }

  /** Numbered places without a gap: each number is its place. */
  lemma {:induction false} GaplessPlaces(s: seq<int>, j: nat)
    requires Increasing(s) && j < |s|
    requires forall x :: x in s ==> x >= 1
    requires forall x, y :: x in s && 1 <= y < x ==> y in s
    ensures s[j] == j + 1
    decreases j
  {
    forall i | 0 <= i < j ensures s[i] == i + 1 {
      GaplessPlaces(s, i);
    }
    assert s[j] in s;
    if j > 0 {
      assert s[j - 1] == j;
    }
    if s[j] > j + 1 {
      assert j + 1 in s;
      var i :| 0 <= i < |s| && s[i] == j + 1;
      assert false;
    }
  }

  /** Some greatest element of a list. */
  function MaxOf(s: seq<int>): (m: int)
    requires s != []
    ensures m in s
    ensures forall x :: x in s ==> x <= m
  {
    if |s| == 1 then s[0]
    else
      var rest := MaxOf(s[1..]);
      assert s == [s[0]] + s[1..];
      if s[0] < rest then rest else s[0]
  }

  /** Some least element of a list. */
  function MinOf(s: seq<int>): (m: int)
    requires s != []
    ensures m in s
    ensures forall x :: x in s ==> m <= x
  {
    if |s| == 1 then s[0]
    else
      var rest := MinOf(s[1..]);
      assert s == [s[0]] + s[1..];
      if rest < s[0] then rest else s[0]
  }

  /** How many elements reach `t`. */
  function Reaching(s: seq<int>, t: int): nat {
    if s == [] then 0 else (if s[0] >= t then 1 else 0) + Reaching(s[1..], t)
  }

  lemma {:induction false} InsertKeepsReaching(x: int, s: seq<int>, t: int)
    ensures Reaching(InsertBy(Down, x, s), t) == Reaching([x] + s, t)
  {
    assert ([x] + s)[1..] == s;
    if s == [] || x >= s[0] {
    } else {
      var inserted := InsertBy(Down, x, s);
      assert inserted[1..] == InsertBy(Down, x, s[1..]);
      InsertKeepsReaching(x, s[1..], t);
      assert ([x] + s[1..])[1..] == s[1..];
    }
  }

  lemma {:induction false} SortKeepsReaching(s: seq<int>, t: int)
    ensures Reaching(SortBy(Down, s), t) == Reaching(s, t)
  {
    if s != [] {
      SortKeepsReaching(s[1..], t);
      InsertKeepsReaching(s[0], SortBy(Down, s[1..]), t);
      assert ([s[0]] + SortBy(Down, s[1..]))[1..] == SortBy(Down, s[1..]);
    }
  }

  /** In a falling list the first `Reaching` elements reach `t`, and no others. */
  lemma {:induction false} ReachingIsPrefix(s: seq<int>, t: int)
    requires Sorted(Down, s)
    ensures Reaching(s, t) <= |s|
    ensures forall i :: 0 <= i < |s| ==> (s[i] >= t <==> i < Reaching(s, t))
  {
    if s != [] {
      ReachingIsPrefix(s[1..], t);
      if s[0] < t {
        assert forall i :: 0 <= i < |s| ==> s[i] < t;
        assert |s| > 1 ==> s[1..][0] == s[1];
      } else {
        assert forall i :: 0 < i < |s| ==> s[i] == s[1..][i - 1];
      }
    }
  }

  /** An order statistic: at least `n` elements reach `t` exactly when the `n`-th
      greatest does. */
  lemma NthGreatestDecides(s: seq<int>, n: nat, t: int)
    requires n > 0
    ensures |SortBy(Down, s)| == |s|
    ensures Reaching(s, t) >= n <==> |s| >= n && SortBy(Down, s)[n - 1] >= t
  {
    SortBySorts(Down, s);
    SortKeepsReaching(s, t);
    ReachingIsPrefix(SortBy(Down, s), t);
  }

  lemma {:induction false} IncreasingSize(s: seq<int>)
    requires Increasing(s)
    ensures |s| == |set x | x in s|
  {
    if s == [] {
      assert (set x | x in s) == {};
    } else {
      var n := |s| - 1;
      IncreasingSize(s[..n]);
      assert (set x | x in s) == (set x | x in s[..n]) + {s[n]};
      assert s[n] !in s[..n];
    }
  }

  lemma SomeMember(s: seq<int>)
    requires s != []
    ensures s[0] in s
  {}

  lemma IncreasingCons(x: int, s: seq<int>)
    requires Increasing(s) && forall y :: y in s ==> x < y
    ensures Increasing([x] + s)
  {
    forall i | 0 <= i < |s| ensures x < s[i] {
      assert s[i] in s;
    }
  }

  lemma {:induction false} InsertNewIncreases(x: int, s: seq<int>)
    requires Increasing(s) && x !in s
    ensures Increasing(InsertBy(Up, x, s))
  {
    if s == [] || x <= s[0] {
      if s != [] {
        SomeMember(s);
        assert x < s[0];
      }
    } else {
      assert forall y :: y in s[1..] ==> y in s;
      InsertNewIncreases(x, s[1..]);
      var rest := InsertBy(Up, x, s[1..]);
      forall y | y in rest ensures s[0] < y {
        InsertMembers(x, s[1..], y);
        if y in s[1..] {
          var i :| 0 <= i < |s[1..]| && s[1..][i] == y;
          assert s[i + 1] == y;
        }
      }
      IncreasingCons(s[0], rest);
    }
  }

  lemma InsertMembers(x: int, s: seq<int>, y: int)
    ensures y in InsertBy(Up, x, s) <==> y in s || y == x
  {
    InsertByElements(Up, x, s);
    assert y in multiset(InsertBy(Up, x, s)) <==> y in multiset(s) + multiset{x};
  }

  /** `sorted` on a set. */
  method SortedSet(xs: set<int>) returns (r: seq<int>)
    ensures Increasing(r)
    ensures forall x :: x in r <==> x in xs
  {
    hide Increasing;
    var rest := xs;
    r := [];
    assert Increasing(r) by { NothingIncreases(); }
    while rest != {}
      invariant rest <= xs
      invariant Increasing(r)
      invariant forall x :: x in r <==> x in xs - rest
      decreases rest
    {
      SomeElement(rest);
      var x :| x in rest;
      assert x !in xs - rest;
      InsertNewIncreases(x, r);
      forall y ensures y in InsertBy(Up, x, r) <==> y in xs - (rest - {x}) {
        InsertMembers(x, r, y);
      }
      rest := rest - {x};
      r := InsertBy(Up, x, r);
    }
  }

  lemma SomeElement(xs: set<int>)
    ensures xs == {} || exists x :: x in xs
  {
    if forall x :: x !in xs {
      assert xs == {};
    }
  }

  lemma NothingIncreases()
    ensures Increasing([])
  {}
}
