/** Sequences with the same multiset of elements. */
module Permutations {

  function Drop<T>(s: seq<T>, i: nat): (r: seq<T>)
    requires i < |s|
    ensures |r| == |s| - 1
  {
    s[..i] + s[i + 1..]
  }

  lemma DropRemovesOne<T>(s: seq<T>, i: nat)
    requires i < |s|
    ensures multiset(Drop(s, i)) == multiset(s) - multiset{s[i]}
  {
    assert s == s[..i] + [s[i]] + s[i + 1..];
  }

  lemma SameLength<T>(a: seq<T>, b: seq<T>)
    requires multiset(a) == multiset(b)
    ensures |a| == |b|
  {
    assert |a| == |multiset(a)| && |b| == |multiset(b)|;
  }

  /** Where an element of one permutation stands in the other. */
  lemma FindIn<T>(a: seq<T>, b: seq<T>, k: nat) returns (i: nat)
    requires multiset(a) == multiset(b) && k < |a|
    ensures i < |b| && b[i] == a[k]
    ensures multiset(Drop(a, k)) == multiset(Drop(b, i))
  {
    assert a[k] in multiset(b);
    i :| 0 <= i < |b| && b[i] == a[k];
    DropRemovesOne(a, k);
    DropRemovesOne(b, i);
  }

  ghost predicate SortedBy<T>(s: seq<T>, le: (T, T) -> bool) {
    forall i, j :: 0 <= i < j < |s| ==> le(s[i], s[j])
  }

  lemma HeadIsLeast<T>(a: seq<T>, b: seq<T>, le: (T, T) -> bool)
    requires a != [] && b != [] && multiset(a) == multiset(b) && SortedBy(a, le)
    ensures a[0] == b[0] || le(a[0], b[0])
  {
    var j := FindIn(b, a, 0);
  }

  lemma TailSorted<T>(a: seq<T>, le: (T, T) -> bool)
    requires a != [] && SortedBy(a, le)
    ensures SortedBy(Drop(a, 0), le) && a == [a[0]] + Drop(a, 0)
  {
  }

  /** Under an antisymmetric order a multiset has one sorted listing. */
  lemma {:induction false} SortedUnique<T(!new)>(a: seq<T>, b: seq<T>, le: (T, T) -> bool)
    requires forall x, y :: le(x, y) && le(y, x) ==> x == y
    requires multiset(a) == multiset(b) && SortedBy(a, le) && SortedBy(b, le)
    ensures a == b
    decreases |a|
  {
    SameLength(a, b);
    if a != [] {
      HeadIsLeast(a, b, le);
      HeadIsLeast(b, a, le);
      DropRemovesOne(a, 0);
      DropRemovesOne(b, 0);
      TailSorted(a, le);
      TailSorted(b, le);
      SortedUnique(Drop(a, 0), Drop(b, 0), le);
    }
  }
}
