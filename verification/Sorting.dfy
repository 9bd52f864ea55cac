/** The library sort, by a total preorder: `sort_by_key`, `sort_unstable`, `sorted`. */
module Sorting {

  ghost predicate TotalPreorder<T(!new)>(leq: (T, T) -> bool) {
    && (forall x, y :: leq(x, y) || leq(y, x))
    && (forall x, y, z :: leq(x, y) && leq(y, z) ==> leq(x, z))
  }

  ghost predicate SortedBy<T>(leq: (T, T) -> bool, s: seq<T>) {
    forall i, j :: 0 <= i < j < |s| ==> leq(s[i], s[j])
  }

  /** No two elements tie. */
  ghost predicate NoTies<T>(leq: (T, T) -> bool, s: seq<T>) {
    forall x, y :: x in s && y in s && leq(x, y) && leq(y, x) ==> x == y
  }

  function Insert<T>(leq: (T, T) -> bool, x: T, s: seq<T>): seq<T> {
    if s == [] || leq(x, s[0]) then [x] + s else [s[0]] + Insert(leq, x, s[1..])
  }

  /** A stable sort. */
  function Sort<T>(leq: (T, T) -> bool, s: seq<T>): seq<T> {
    if s == [] then [] else Insert(leq, s[0], Sort(leq, s[1..]))
  }

  lemma {:induction false} InsertKeeps<T(!new)>(leq: (T, T) -> bool, x: T, s: seq<T>)
    requires TotalPreorder(leq) && SortedBy(leq, s)
    ensures multiset(Insert(leq, x, s)) == multiset{x} + multiset(s)
    ensures SortedBy(leq, Insert(leq, x, s))
    decreases |s|
  {
    hide SortedBy, TotalPreorder;
    EitherWay(leq, x, if s == [] then x else s[0]);
    if s == [] || leq(x, s[0]) {
      PrependSorted(leq, x, s);
    } else {
      RestSorted(leq, s);
      InsertKeeps(leq, x, s[1..]);
      var tail := Insert(leq, x, s[1..]);
      RestMultiset(s);
      HeadLeast(leq, s);
      InsertHolds(leq, x, s[1..]);
      assert leq(s[0], x);
      PrependSorted(leq, s[0], tail);
    }
  }

  lemma EitherWay<T(!new)>(leq: (T, T) -> bool, x: T, y: T)
    requires TotalPreorder(leq)
    ensures leq(x, x) && (leq(x, y) || leq(y, x))
  {
  }

  lemma HeadLeast<T(!new)>(leq: (T, T) -> bool, s: seq<T>)
    requires SortedBy(leq, s) && s != []
    ensures forall y :: y in s[1..] ==> leq(s[0], y)
  {
  }

  lemma {:induction false} InsertHolds<T>(leq: (T, T) -> bool, x: T, s: seq<T>)
    ensures forall y :: y in Insert(leq, x, s) ==> y == x || y in s
    decreases |s|
  {
    if s != [] && !leq(x, s[0]) {
      InsertHolds(leq, x, s[1..]);
    }
  }

  lemma PrependSorted<T(!new)>(leq: (T, T) -> bool, x: T, s: seq<T>)
    requires TotalPreorder(leq) && SortedBy(leq, s)
    requires s == [] || leq(x, s[0]) || (forall y :: y in s ==> leq(x, y))
    ensures SortedBy(leq, [x] + s)
  {
  }

  /** The sort is an ordered permutation of its input. */
  lemma {:induction false} SortSorts<T(!new)>(leq: (T, T) -> bool, s: seq<T>)
    requires TotalPreorder(leq)
    ensures multiset(Sort(leq, s)) == multiset(s)
    ensures SortedBy(leq, Sort(leq, s))
    ensures |Sort(leq, s)| == |s|
    decreases |s|
  {
    if s != [] {
      SortSorts(leq, s[1..]);
      InsertKeeps(leq, s[0], Sort(leq, s[1..]));
      assert s == [s[0]] + s[1..];
    }
    assert |Sort(leq, s)| == |multiset(Sort(leq, s))| == |multiset(s)| == |s|;
  }

  lemma SameElements<T>(s: seq<T>, t: seq<T>)
    requires multiset(s) == multiset(t)
    ensures forall x :: x in s <==> x in t
    ensures |s| == |t|
  {
    forall x ensures x in s <==> x in t {
      assert x in s <==> x in multiset(s);
    }
    assert |s| == |multiset(s)| == |multiset(t)| == |t|;
  }

  lemma RestMultiset<T>(s: seq<T>)
    requires s != []
    ensures s == [s[0]] + s[1..]
    ensures multiset(s[1..]) == multiset(s) - multiset{s[0]}
  {
    assert s == [s[0]] + s[1..];
  }

  /** Without ties, an ordered permutation is the only one. */
  lemma {:induction false} SortedIsUnique<T(!new)>(leq: (T, T) -> bool, s: seq<T>, t: seq<T>)
    requires TotalPreorder(leq) && SortedBy(leq, s) && SortedBy(leq, t) && NoTies(leq, s)
    requires multiset(s) == multiset(t)
    ensures s == t
    decreases |s|
  {
    hide SortedBy, NoTies, TotalPreorder;
    if s != [] {
      SameHead(leq, s, t);
      RestMultiset(s);
      RestMultiset(t);
      RestSorted(leq, s);
      RestSorted(leq, t);
      RestUntied(leq, s);
      SortedIsUnique(leq, s[1..], t[1..]);
    } else {
      assert |multiset(t)| == 0;
    }
  }

  lemma SameHead<T(!new)>(leq: (T, T) -> bool, s: seq<T>, t: seq<T>)
    requires TotalPreorder(leq) && SortedBy(leq, s) && SortedBy(leq, t) && NoTies(leq, s)
    requires s != [] && multiset(s) == multiset(t)
    ensures |t| == |s| && s[0] == t[0]
  {
    SameElements(s, t);
    assert s[0] in t && t[0] in s;
    assert leq(s[0], t[0]) && leq(t[0], s[0]);
  }

  lemma RestSorted<T(!new)>(leq: (T, T) -> bool, s: seq<T>)
    requires SortedBy(leq, s) && s != []
    ensures SortedBy(leq, s[1..])
  {
  }

  lemma RestUntied<T(!new)>(leq: (T, T) -> bool, s: seq<T>)
    requires NoTies(leq, s) && s != []
    ensures NoTies(leq, s[1..])
  {
  }

  /** What the sort returns does not depend on the order of its input. */
  lemma SortForgetsOrder<T(!new)>(leq: (T, T) -> bool, s: seq<T>, t: seq<T>)
    requires TotalPreorder(leq) && NoTies(leq, s) && multiset(s) == multiset(t)
    ensures Sort(leq, s) == Sort(leq, t)
  {
    SortSorts(leq, s);
    SortSorts(leq, t);
    SameElements(s, Sort(leq, s));
    SortedIsUnique(leq, Sort(leq, s), Sort(leq, t));
  }

  /** Lists without repetition are permutations of each other when they hold the same
      elements. */
  lemma {:induction false} DistinctMultiset<T>(s: seq<T>, t: seq<T>)
    requires forall i, j :: 0 <= i < j < |s| ==> s[i] != s[j]
    requires forall i, j :: 0 <= i < j < |t| ==> t[i] != t[j]
    requires forall x :: x in s <==> x in t
    ensures multiset(s) == multiset(t)
  {
    forall x ensures multiset(s)[x] == multiset(t)[x] {
      DistinctCount(s, x);
      DistinctCount(t, x);
    }
  }

  lemma {:induction false} DistinctCount<T>(s: seq<T>, x: T)
    requires forall i, j :: 0 <= i < j < |s| ==> s[i] != s[j]
    ensures multiset(s)[x] == if x in s then 1 else 0
    decreases |s|
  {
    if s != [] {
      DistinctCount(s[1..], x);
      assert s == [s[0]] + s[1..];
    }
  }

  /** If no two positions of a list are alike, no two positions of a permutation are. */
  lemma PermutationKeepsApart<T(!new)>(s: seq<T>, t: seq<T>, alike: (T, T) -> bool)
    requires multiset(s) == multiset(t)
    requires forall x :: alike(x, x)
    requires forall x, y :: alike(x, y) ==> alike(y, x)
    requires forall i, j :: 0 <= i < j < |s| ==> !alike(s[i], s[j])
    ensures forall i, j :: 0 <= i < j < |t| ==> !alike(t[i], t[j])
  {
    SameElements(s, t);
    forall i, j | 0 <= i < j < |t| ensures !alike(t[i], t[j]) {
      assert t[i] in s && t[j] in s;
      if alike(t[i], t[j]) {
        assert t[i] == t[j];
        TwiceInMultiset(t, i, j);
        assert forall a, b :: 0 <= a < b < |s| ==> s[a] != s[b];
        DistinctCount(s, t[i]);
      }
    }
  }

  lemma TwiceInMultiset<T>(t: seq<T>, i: nat, j: nat)
    requires i < j < |t| && t[i] == t[j]
    ensures multiset(t)[t[i]] >= 2
  {
    assert t == t[..i] + [t[i]] + t[i + 1..j] + [t[j]] + t[j + 1..];
  }
}
