/**
 Python's ordering of strings and its `sorted`, shared by every component that makes its output
 deterministic by sorting.  `sorted` is modelled as insertion sort; what the other modules use is
 only that the result is ordered, is a permutation, and is the unique such sequence.
 */
module Ordering {

  /** Python's `a <= b` on strings: lexicographic by code point. */
  predicate Le(a: string, b: string)
    decreases |a|
  {
    a == "" || (b != "" && (a[0] < b[0] || (a[0] == b[0] && Le(a[1..], b[1..]))))
  }

  lemma {:induction false} LeTotal(a: string, b: string)
    ensures Le(a, b) || Le(b, a)
    decreases |a|
  {
    if a != "" && b != "" {
      LeTotal(a[1..], b[1..]);
    }
  }

  lemma {:induction false} LeAntisymmetric(a: string, b: string)
    requires Le(a, b) && Le(b, a)
    ensures a == b
    decreases |a|
  {
    if a != "" {
      LeAntisymmetric(a[1..], b[1..]);
      assert a == [a[0]] + a[1..] && b == [b[0]] + b[1..];
    }
  }

  lemma {:induction false} LeTransitive(a: string, b: string, c: string)
    requires Le(a, b) && Le(b, c)
    ensures Le(a, c)
    decreases |a|
  {
    if a != "" && a[0] == b[0] == c[0] {
      LeTransitive(a[1..], b[1..], c[1..]);
    }
  }

  /** The first `k` characters agree and the next one is smaller. */
  ghost predicate SmallerAt(a: string, b: string, k: nat) {
    k < |a| && k < |b| && a[..k] == b[..k] && a[k] < b[k]
  }

  lemma SmallerAtTail(a: string, b: string, k: nat)
    requires a != "" && b != ""
    ensures SmallerAt(a, b, k + 1) <==> a[0] == b[0] && SmallerAt(a[1..], b[1..], k)
  {
    if k < |a| - 1 && k < |b| - 1 {
      assert a[..k + 1] == [a[0]] + a[1..][..k] && b[..k + 1] == [b[0]] + b[1..][..k];
    }
  }

  /** A prefix comes first; otherwise the first difference decides. */
  lemma {:induction false} LeIff(a: string, b: string)
    ensures Le(a, b) <==> a <= b || exists k: nat :: SmallerAt(a, b, k)
    decreases |a|
  {
    if a != "" && b != "" {
      LeIff(a[1..], b[1..]);
      assert a == [a[0]] + a[1..] && b == [b[0]] + b[1..];
      if a[0] < b[0] { assert SmallerAt(a, b, 0); }
      if k: nat :| SmallerAt(a[1..], b[1..], k) { SmallerAtTail(a, b, k); }
      if k: nat :| SmallerAt(a, b, k) && k > 0 { SmallerAtTail(a, b, k - 1); }
    }
  }

  /** An order in which different elements may tie, as when sorting by a key. */
  ghost predicate Preorder<T(!new)>(le: (T, T) -> bool) {
    && (forall a, b :: le(a, b) || le(b, a))
    && (forall a, b, c :: le(a, b) && le(b, c) ==> le(a, c))
  }

  ghost predicate TotalOrder<T(!new)>(le: (T, T) -> bool) {
    Preorder(le) && forall a, b :: le(a, b) && le(b, a) ==> a == b
  }

  lemma LeIsTotalOrder()
    ensures TotalOrder(Le)
  {
    forall a, b ensures Le(a, b) || Le(b, a) { LeTotal(a, b); }
    forall a, b | Le(a, b) && Le(b, a) ensures a == b { LeAntisymmetric(a, b); }
    forall a, b, c | Le(a, b) && Le(b, c) ensures Le(a, c) { LeTransitive(a, b, c); }
  }

  ghost predicate Sorted<T>(s: seq<T>, le: (T, T) -> bool) {
    forall i, j :: 0 <= i < j < |s| ==> le(s[i], s[j])
  }

  function Insert<T>(x: T, s: seq<T>, le: (T, T) -> bool): (r: seq<T>)
    ensures multiset(r) == multiset([x]) + multiset(s)
  {
    if s == [] then [x]
    else if le(x, s[0]) then
      [x] + s
    else
      assert s == [s[0]] + s[1..];
      [s[0]] + Insert(x, s[1..], le)
  }

  /** Python's `sorted(s, key=...)`, with the key given as an ordering. */
  function Sort<T>(s: seq<T>, le: (T, T) -> bool): (r: seq<T>)
    ensures multiset(r) == multiset(s)
    ensures |r| == |s|
  {
    if s == [] then []
    else
      assert s == [s[0]] + s[1..];
      var r := Insert(s[0], Sort(s[1..], le), le);
      assert |multiset(r)| == |multiset(s)|;
      r
  }

  lemma {:induction false} InsertKeepsSorted<T(!new)>(x: T, s: seq<T>, le: (T, T) -> bool)
    requires Preorder(le) && Sorted(s, le)
    ensures Sorted(Insert(x, s, le), le)
  {
    if s != [] && !le(x, s[0]) {
      InsertKeepsSorted(x, s[1..], le);
      var rest := Insert(x, s[1..], le);
      forall k | 0 <= k < |rest| ensures le(s[0], rest[k]) {
        assert rest[k] in multiset(rest);
      }
    }
  }

  lemma {:induction false} SortSorts<T(!new)>(s: seq<T>, le: (T, T) -> bool)
    requires Preorder(le)
    ensures Sorted(Sort(s, le), le)
  {
    if s != [] {
      SortSorts(s[1..], le);
      InsertKeepsSorted(s[0], Sort(s[1..], le), le);
    }
  }

  lemma SameHead<T(!new)>(a: seq<T>, b: seq<T>, le: (T, T) -> bool)
    requires TotalOrder(le) && Sorted(a, le) && Sorted(b, le)
    requires multiset(a) == multiset(b) && a != [] && b != []
    ensures a[0] == b[0]
  {
    assert a[0] in multiset(b) && b[0] in multiset(a);
    var i :| 0 <= i < |b| && b[i] == a[0];
    var j :| 0 <= j < |a| && a[j] == b[0];
    assert i == 0 || le(b[0], a[0]);
    assert j == 0 || le(a[0], b[0]);
  }

  /** There is only one way to sort: this is what makes every `sorted` in the source order-blind. */
  lemma {:induction false} SortedUnique<T(!new)>(a: seq<T>, b: seq<T>, le: (T, T) -> bool)
    requires TotalOrder(le) && Sorted(a, le) && Sorted(b, le)
    requires multiset(a) == multiset(b)
    ensures a == b
    decreases |a|
  {
    assert |a| == |multiset(a)| == |multiset(b)| == |b|;
    if a != [] {
      SameHead(a, b, le);
      assert a == [a[0]] + a[1..] && b == [b[0]] + b[1..];
      assert multiset(a[1..]) == multiset(a) - multiset{a[0]};
      assert multiset(b[1..]) == multiset(b) - multiset{b[0]};
      SortedUnique(a[1..], b[1..], le);
    }
  }

  lemma SortIgnoresOrder<T(!new)>(a: seq<T>, b: seq<T>, le: (T, T) -> bool)
    requires TotalOrder(le) && multiset(a) == multiset(b)
    ensures Sort(a, le) == Sort(b, le)
  {
    SortSorts(a, le);
    SortSorts(b, le);
    SortedUnique(Sort(a, le), Sort(b, le), le);
  }

  ghost predicate NoDuplicates<T>(s: seq<T>) {
    forall i, j :: 0 <= i < j < |s| ==> s[i] != s[j]
  }

  /** Where the first of a sequence is in a permutation of it. */
  lemma HeadAmong<T>(xs: seq<T>, ys: seq<T>) returns (k: nat)
    requires xs != [] && multiset(xs) == multiset(ys)
    ensures k < |ys| && ys[k] == xs[0] && multiset(ys[..k] + ys[k + 1..]) == multiset(xs[1..])
  {
    assert xs[0] in multiset(ys);
    k :| 0 <= k < |ys| && ys[k] == xs[0];
    assert ys == ys[..k] + ([ys[k]] + ys[k + 1..]);
    assert xs == [xs[0]] + xs[1..];
    assert multiset(ys[..k] + ys[k + 1..]) == multiset(ys) - multiset{xs[0]} == multiset(xs[1..]);
  }

  /** `[f(x) for x in xs]` */
  function Map<T, N>(xs: seq<T>, f: T -> N): (r: seq<N>)
    ensures |r| == |xs| && forall i :: 0 <= i < |xs| ==> r[i] == f(xs[i])
  {
    seq(|xs|, i requires 0 <= i < |xs| => f(xs[i]))
  }

  lemma {:induction false} MapBag<T, N>(a: seq<T>, b: seq<T>, f: T -> N)
    requires multiset(a) == multiset(b)
    ensures multiset(Map(a, f)) == multiset(Map(b, f))
    decreases |a|
  {
    if a == [] {
      assert |b| == |multiset(b)| == |multiset(a)| == 0;
    } else {
      var k := HeadAmong(a, b);
      var rest := b[..k] + b[k + 1..];
      MapBag(a[1..], rest, f);
      assert Map(a, f) == [f(a[0])] + Map(a[1..], f);
      assert Map(b, f) == Map(b[..k], f) + [f(b[k])] + Map(b[k + 1..], f);
      assert Map(rest, f) == Map(b[..k], f) + Map(b[k + 1..], f);
    }
  }

  lemma CountAppend(xs: seq<string>, x: string)
    ensures forall f :: multiset(xs + [x])[f] == multiset(xs)[f] + if f == x then 1 else 0
  {
  }

  /** A sequence repeats nothing exactly when no element is counted twice. */
  lemma {:induction false} NoDuplicatesIsCount(xs: seq<string>)
    ensures NoDuplicates(xs) <==> forall f :: multiset(xs)[f] <= 1
  {
    if xs != [] {
      var n := |xs| - 1;
      NoDuplicatesIsCount(xs[..n]);
      assert xs == xs[..n] + [xs[n]];
      CountAppend(xs[..n], xs[n]);
      assert xs[n] in xs[..n] <==> multiset(xs[..n])[xs[n]] > 0;
      if NoDuplicates(xs) {
        assert NoDuplicates(xs[..n]);
        assert xs[n] !in xs[..n];
      }
      if forall f :: multiset(xs)[f] <= 1 {
        assert forall f :: multiset(xs[..n])[f] <= multiset(xs)[f];
        assert NoDuplicates(xs[..n]) && xs[n] !in xs[..n];
      }
    }
  }

  /** Python's test `len(set(xs)) == len(xs)`. */
  lemma {:induction false} SizeIffNoDuplicates(xs: seq<string>)
    ensures |set x | x in xs| <= |xs|
    ensures |set x | x in xs| == |xs| <==> NoDuplicates(xs)
    decreases |xs|
  {
    if xs != [] {
      var n := |xs| - 1;
      var rest := xs[..n];
      SizeIffNoDuplicates(rest);
      assert xs == rest + [xs[n]];
      var small := set x | x in rest;
      assert (set x | x in xs) == small + {xs[n]};
      if xs[n] in rest {
        assert small + {xs[n]} == small;
        assert !NoDuplicates(xs);
      } else {
        assert |small + {xs[n]}| == |small| + 1;
        assert NoDuplicates(xs) <==> NoDuplicates(rest);
      }
    }
  }

  lemma SameMembersSameBag(xs: seq<string>, ys: seq<string>)
    requires NoDuplicates(xs) && NoDuplicates(ys) && forall x :: x in xs <==> x in ys
    ensures multiset(xs) == multiset(ys)
  {
    NoDuplicatesIsCount(xs);
    NoDuplicatesIsCount(ys);
    forall x ensures multiset(xs)[x] == multiset(ys)[x] {
      assert x in multiset(xs) <==> x in xs;
      assert x in multiset(ys) <==> x in ys;
    }
  }

  ghost predicate IsLeast(x: string, s: set<string>) {
    x in s && forall y :: y in s ==> Le(x, y)
  }

  lemma LeastOfMore(s: set<string>, m: string, x: string)
    requires IsLeast(m, s)
    ensures IsLeast(if Le(x, m) then x else m, s + {x})
  {
    LeTotal(x, x);
    LeTotal(m, x);
    if Le(x, m) {
      forall y | y in s ensures Le(x, y) { LeTransitive(x, m, y); }
    }
  }

  lemma LeastExists(s: set<string>)
    requires s != {}
    ensures exists x :: IsLeast(x, s)
  {
    var x :| x in s;
    if s == {x} {
      LeTotal(x, x);
      assert IsLeast(x, s);
    } else {
      LeastExists(s - {x});
      var m :| IsLeast(m, s - {x});
      LeastOfMore(s - {x}, m, x);
      assert s - {x} + {x} == s;
    }
  }

  function Least(s: set<string>): (x: string)
    requires s != {}
    ensures IsLeast(x, s)
  {
    LeastExists(s);
    LeIsTotalOrder();
    var x :| x in s && forall y :: y in s ==> Le(x, y);
    x
  }

  /** Python's `sorted(a_set)`. */
  function SortedSet(s: set<string>): (r: seq<string>)
    ensures forall x :: x in r <==> x in s
    ensures NoDuplicates(r)
    ensures |r| == |s|
  {
    if s == {} then [] else [Least(s)] + SortedSet(s - {Least(s)})
  }

  lemma SortedSetEmptyIff(s: set<string>)
    ensures SortedSet(s) == [] <==> s == {}
  {
    if s != {} {
      var x :| x in s;
      assert x in SortedSet(s);
    }
  }

  lemma SortedSetInjective(a: set<string>, b: set<string>)
    ensures SortedSet(a) == SortedSet(b) <==> a == b
  {
    if SortedSet(a) == SortedSet(b) {
      forall x ensures x in a <==> x in b {
        assert x in SortedSet(a) <==> x in SortedSet(b);
      }
    }
  }

  lemma {:induction false} SortedSetSorts(s: set<string>)
    ensures Sorted(SortedSet(s), Le)
  {
    if s != {} {
      var x := Least(s);
      var rest := SortedSet(s - {x});
      SortedSetSorts(s - {x});
      forall k | 0 <= k < |rest| ensures Le(x, rest[k]) {
        assert rest[k] in rest;
      }
    }
  }

  /**
   Python's `sorted` of a set, as far as some components need it: a fixed listing of every member once.
   What they prove holds for any such listing, `SortedSet` among them.
   */
  ghost predicate Lists<T(!new)>(sorted: set<T> -> seq<T>) {
    forall s :: Listed(sorted(s), s)
  }

  ghost predicate Listed<T(!new)>(names: seq<T>, s: set<T>) {
    (forall x :: x in names <==> x in s) && NoDuplicates(names) && |names| == |s|
  }

  lemma SortedSetLists()
    ensures Lists(SortedSet)
  {
    forall s ensures Listed(SortedSet(s), s) {
    }
  }
}
