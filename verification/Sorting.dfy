/** Insertion into a sorted list, for any strict order with ties. */
module Sorting {

  // The laws of the order, each a predicate of its own, to be called upon by name.

  predicate Asymmetric<T>(before: (T, T) -> bool, a: T, b: T) {
    before(a, b) ==> !before(b, a)
  }

  predicate Cotransitive<T>(before: (T, T) -> bool, a: T, b: T, c: T) {
    before(a, b) && !before(c, b) ==> !before(c, a)
  }

  ghost predicate Orders<T(!new)>(before: (T, T) -> bool) {
    (forall a, b :: Asymmetric(before, a, b)) && (forall a, b, c :: Cotransitive(before, a, b, c))
  }

  /** Nothing precedes what stands in front of it. */
  ghost predicate Sorted<T>(s: seq<T>, before: (T, T) -> bool) {
    forall i, j :: 0 <= i < j < |s| ==> !before(s[j], s[i])
  }

  ghost predicate NoDuplicates<T>(s: seq<T>) {
    forall i, j :: 0 <= i < j < |s| ==> s[i] != s[j]
  }

  /** Put an item behind everything it does not precede. */
  function Insert<T>(x: T, s: seq<T>, before: (T, T) -> bool): (r: seq<T>)
    ensures multiset(r) == multiset{x} + multiset(s)
  {
    if s == [] || before(x, s[0]) then [x] + s
    else
      assert s == [s[0]] + s[1..];
      [s[0]] + Insert(x, s[1..], before)
  }

  /** A sorted list of the same items. */
  function Sort<T>(s: seq<T>, before: (T, T) -> bool): (r: seq<T>)
    ensures multiset(r) == multiset(s)
  {
    if s == [] then []
    else
      assert s == s[..|s| - 1] + [s[|s| - 1]];
      Insert(s[|s| - 1], Sort(s[..|s| - 1], before), before)
  }

  lemma HeadSorted<T>(x: T, s: seq<T>, before: (T, T) -> bool)
    requires Sorted(s, before) && forall y :: y in s ==> !before(y, x)
    ensures Sorted([x] + s, before)
  {
    var more := [x] + s;
    forall i, j | 0 <= i < j < |more| ensures !before(more[j], more[i]) {
      assert more[j] == s[j - 1];
      assert i > 0 ==> more[i] == s[i - 1];
    }
  }

  lemma SameItems<T>(a: seq<T>, b: seq<T>)
    requires multiset(a) == multiset(b)
    ensures |a| == |b| && forall x :: x in a <==> x in b
  {
    assert |multiset(a)| == |a| && |multiset(b)| == |b|;
    forall x ensures x in a <==> x in b {
      assert x in a <==> x in multiset(a);
      assert x in b <==> x in multiset(b);
    }
  }

  lemma {:induction false} InsertSorts<T(!new)>(x: T, s: seq<T>, before: (T, T) -> bool)
    requires Orders(before) && Sorted(s, before)
    ensures Sorted(Insert(x, s, before), before)
  {
    if s == [] {
    } else if before(x, s[0]) {
      forall y | y in s ensures !before(y, x) {
        assert Asymmetric(before, x, s[0]) && Cotransitive(before, x, s[0], y);
      }
      HeadSorted(x, s, before);
    } else {
      InsertSorts(x, s[1..], before);
      var rest := Insert(x, s[1..], before);
      SameItems(rest, [x] + s[1..]);
      HeadSorted(s[0], rest, before);
    }
  }

  lemma {:induction false} SortSorts<T(!new)>(s: seq<T>, before: (T, T) -> bool)
    requires Orders(before)
    ensures Sorted(Sort(s, before), before)
  {
    if s != [] {
      SortSorts(s[..|s| - 1], before);
      InsertSorts(s[|s| - 1], Sort(s[..|s| - 1], before), before);
    }
  }

  /** A rearrangement of distinct items has distinct items. */
  lemma RearrangedIsDistinct<T>(a: seq<T>, b: seq<T>)
    requires multiset(a) == multiset(b) && NoDuplicates(a)
    ensures NoDuplicates(b)
  {
    forall i, j | 0 <= i < j < |b| ensures b[i] != b[j] {
      if b[i] == b[j] {
        TwiceCounted(b, i, j);
        OnceCounted(a, b[i]);
      }
    }
  }

  lemma TwiceCounted<T>(s: seq<T>, i: nat, j: nat)
    requires i < j < |s| && s[i] == s[j]
    ensures multiset(s)[s[i]] >= 2
  {
    assert s == s[..j] + [s[j]] + s[j + 1..];
    assert s[i] in s[..j];
  }

  lemma {:induction false} OnceCounted<T>(s: seq<T>, x: T)
    requires NoDuplicates(s)
    ensures multiset(s)[x] <= 1
  {
    if s != [] {
      OnceCounted(s[1..], x);
      assert s == [s[0]] + s[1..];
      assert s[0] !in s[1..];
    }
  }
}
