/** Facts about sequences that the sidebar needs: mapping, duplicate-freedom and multisets. */
module Seqs {

  /** Applies `f` to every element; `f` may be partial as long as it is defined on the elements. */
  function Map<A, B>(f: A --> B, s: seq<A>): (r: seq<B>)
    requires forall i :: 0 <= i < |s| ==> f.requires(s[i])
    ensures |r| == |s|
    ensures forall i :: 0 <= i < |s| ==> r[i] == f(s[i])
  {
    seq(|s|, i requires 0 <= i < |s| => f(s[i]))
  }

  lemma MapConcat<A, B>(f: A --> B, s: seq<A>, t: seq<A>)
    requires forall i :: 0 <= i < |s| ==> f.requires(s[i])
    requires forall i :: 0 <= i < |t| ==> f.requires(t[i])
    ensures Map(f, s + t) == Map(f, s) + Map(f, t)
  {
  }

  lemma MapRemoveAt<A, B>(f: A --> B, b: seq<A>, j: int)
    requires forall i :: 0 <= i < |b| ==> f.requires(b[i])
    requires 0 <= j < |b|
    ensures multiset(Map(f, b)) == multiset(Map(f, b[..j] + b[j + 1..])) + multiset{f(b[j])}
  {
    var lo, hi := b[..j], b[j + 1..];
    assert b == lo + [b[j]] + hi;
    MapConcat(f, lo, [b[j]]);
    MapConcat(f, lo + [b[j]], hi);
    MapConcat(f, lo, hi);
  }

  lemma FindIndex<A>(b: seq<A>, x: A) returns (j: int)
    requires x in multiset(b)
    ensures 0 <= j < |b| && b[j] == x
  {
    j :| 0 <= j < |b| && b[j] == x;
  }

  lemma RemoveAtKeepsDefined<A, B>(f: A --> B, b: seq<A>, j: int, rest: seq<A>)
    requires forall i :: 0 <= i < |b| ==> f.requires(b[i])
    requires 0 <= j < |b| && rest == b[..j] + b[j + 1..]
    ensures forall i :: 0 <= i < |rest| ==> f.requires(rest[i])
  {
    forall i | 0 <= i < |rest|
      ensures f.requires(rest[i])
    {
      assert rest[i] == if i < j then b[i] else b[i + 1];
    }
  }

  lemma MapCons<A, B>(f: A --> B, a: seq<A>)
    requires forall i :: 0 <= i < |a| ==> f.requires(a[i])
    requires |a| > 0
    ensures multiset(Map(f, a)) == multiset(Map(f, a[1..])) + multiset{f(a[0])}
  {
    assert a == [a[0]] + a[1..];
    MapConcat(f, [a[0]], a[1..]);
    assert Map(f, a) == [f(a[0])] + Map(f, a[1..]);
  }

  /** Removing matching elements from two permutations of each other leaves permutations. */
  lemma RemoveMatching<A>(a: seq<A>, b: seq<A>, j: int)
    requires multiset(a) == multiset(b) && |a| > 0
    requires 0 <= j < |b| && b[j] == a[0]
    ensures multiset(b[..j] + b[j + 1..]) == multiset(a[1..])
  {
    var x, rest := a[0], b[..j] + b[j + 1..];
    assert b == b[..j] + [x] + b[j + 1..];
    assert multiset(b) == multiset(rest) + multiset{x};
    assert a == [x] + a[1..];
    assert multiset(a) == multiset(a[1..]) + multiset{x};
    forall y
      ensures multiset(rest)[y] == multiset(a[1..])[y]
    {
      assert (multiset(rest) + multiset{x})[y] == (multiset(a[1..]) + multiset{x})[y];
    }
  }

  /** Mapping respects permutation: the same elements in another order map to the same elements. */
  lemma {:induction false} MapPreservesMultiset<A, B>(f: A --> B, a: seq<A>, b: seq<A>)
    requires forall i :: 0 <= i < |a| ==> f.requires(a[i])
    requires forall i :: 0 <= i < |b| ==> f.requires(b[i])
    requires multiset(a) == multiset(b)
    ensures multiset(Map(f, a)) == multiset(Map(f, b))
    decreases |a|
  {
    if |a| == 0 {
      assert |b| == |multiset(b)| == 0;
    } else {
      assert a[0] in multiset(a);
      var j := FindIndex(b, a[0]);
      var rest := b[..j] + b[j + 1..];
      RemoveAtKeepsDefined(f, b, j, rest);
      RemoveMatching(a, b, j);
      MapPreservesMultiset(f, a[1..], rest);
      MapRemoveAt(f, b, j);
      MapCons(f, a);
    }
  }

  predicate Distinct<T(==)>(s: seq<T>) {
    forall i, j :: 0 <= i < j < |s| ==> s[i] != s[j]
  }

  /** In a duplicate-free sequence every element occurs exactly once. */
  lemma {:induction false} DistinctMultiplicity<T>(s: seq<T>, x: T)
    requires Distinct(s)
    ensures multiset(s)[x] == if x in s then 1 else 0
    decreases |s|
  {
    if |s| > 0 {
      assert s == [s[0]] + s[1..];
      assert Distinct(s[1..]);
      DistinctMultiplicity(s[1..], x);
    }
  }

  /** Two duplicate-free sequences with the same elements are permutations of each other. */
  lemma DistinctSameElements<T>(a: seq<T>, b: seq<T>)
    requires Distinct(a) && Distinct(b)
    requires forall x :: x in a <==> x in b
    ensures multiset(a) == multiset(b)
  {
    forall x
      ensures multiset(a)[x] == multiset(b)[x]
    {
      DistinctMultiplicity(a, x);
      DistinctMultiplicity(b, x);
    }
  }
}
