/** Stable insertion sort by a total order, standing for the library's `sort_by_key`. */
module Sorting {
  ghost predicate TotalOrder<T(!new)>(leq: (T, T) -> bool) {
    && (forall a, b :: leq(a, b) || leq(b, a))
    && (forall a, b, c :: leq(a, b) && leq(b, c) ==> leq(a, c))
  }

  ghost predicate Ordered<T>(leq: (T, T) -> bool, s: seq<T>) {
    forall i, j :: 0 <= i < j < |s| ==> leq(s[i], s[j])
  }

  function Insert<T>(leq: (T, T) -> bool, sorted: seq<T>, x: T): seq<T> {
    if sorted == [] then [x]
    else if leq(x, sorted[0]) then [x] + sorted
    else [sorted[0]] + Insert(leq, sorted[1..], x)
  }

  function Sort<T>(leq: (T, T) -> bool, s: seq<T>): seq<T> {
    if s == [] then [] else Insert(leq, Sort(leq, s[1..]), s[0])
  }

  lemma {:induction false} InsertKeeps<T(!new)>(leq: (T, T) -> bool, sorted: seq<T>, x: T)
    requires TotalOrder(leq) && Ordered(leq, sorted)
    ensures Ordered(leq, Insert(leq, sorted, x))
    ensures multiset(Insert(leq, sorted, x)) == multiset(sorted) + multiset{x}
  {
    if sorted != [] && !leq(x, sorted[0]) {
      var rest := sorted[1..];
      InsertKeeps(leq, rest, x);
      assert sorted == [sorted[0]] + rest;
      forall y | y in Insert(leq, rest, x)
        ensures leq(sorted[0], y)
      {
        assert y in multiset(Insert(leq, rest, x));
        assert y == x || y in rest;
      }
    }
  }

  /** Sorting orders the list and keeps its elements with their multiplicities. */
  lemma {:induction false} SortKeeps<T(!new)>(leq: (T, T) -> bool, s: seq<T>)
    requires TotalOrder(leq)
    ensures Ordered(leq, Sort(leq, s))
    ensures multiset(Sort(leq, s)) == multiset(s)
    ensures |Sort(leq, s)| == |s|
    ensures forall x :: x in Sort(leq, s) <==> x in s
  {
    if s != [] {
      SortKeeps(leq, s[1..]);
      InsertKeeps(leq, Sort(leq, s[1..]), s[0]);
      assert s == [s[0]] + s[1..];
    }
    SameElements(Sort(leq, s), s);
  }

  lemma SameElements<T>(a: seq<T>, b: seq<T>)
    requires multiset(a) == multiset(b)
    ensures |a| == |b|
    ensures forall x :: x in a <==> x in b
  {
    assert |multiset(a)| == |a| && |multiset(b)| == |b|;
    forall x
      ensures x in a <==> x in b
    {
      assert x in a <==> x in multiset(a);
      assert x in b <==> x in multiset(b);
    }
  }

  /** Sorting a list without repetitions gives a list without repetitions. */
  lemma SortDistinct<T(!new)>(leq: (T, T) -> bool, s: seq<T>)
    requires TotalOrder(leq)
    requires forall i, j :: 0 <= i < j < |s| ==> s[i] != s[j]
    ensures forall i, j :: 0 <= i < j < |Sort(leq, s)| ==> Sort(leq, s)[i] != Sort(leq, s)[j]
  {
    SortKeeps(leq, s);
    var t := Sort(leq, s);
    forall i, j | 0 <= i < j < |t|
      ensures t[i] != t[j]
    {
      if t[i] == t[j] {
        TwiceInMultiset(t, i, j);
        OnceInMultiset(s, t[i]);
      }
    }
  }

  lemma TwiceInMultiset<T>(t: seq<T>, i: nat, j: nat)
    requires i < j < |t| && t[i] == t[j]
    ensures multiset(t)[t[i]] >= 2
  {
    assert t == t[..j] + t[j..];
    assert t[i] in t[..j] && t[j] in t[j..];
    assert multiset(t) == multiset(t[..j]) + multiset(t[j..]);
    assert t[..j][i] in multiset(t[..j]) && t[j..][0] in multiset(t[j..]);
  }

  lemma {:induction false} OnceInMultiset<T>(s: seq<T>, x: T)
    requires forall i, j :: 0 <= i < j < |s| ==> s[i] != s[j]
    ensures multiset(s)[x] <= 1
  {
    if s != [] {
      OnceInMultiset(s[1..], x);
      assert s == [s[0]] + s[1..];
      assert s[0] !in s[1..];
    }
  }
}
