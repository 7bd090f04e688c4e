/**
 The sidebar's tag histogram: every distinct capitalized tag paired with the
 number of posts carrying it, in ascending order of tag.

 `IsHistogramOf` says what a correct histogram is, in the terms the route code
 builds it (the set of capitalized tags, `list.count` of each, sorted by key);
 `TagHistogram` is a reference computation that adds one tag at a time to a
 sorted histogram; `HistogramUnique` shows the two descriptions cannot differ.
 */
module Histogram {
  import opened Text
  import opened StringOrder
  import Seqs

  /** Sorted (tag, count) pairs, the `OrderedDict` the templates receive. */
  type Hist = seq<(string, nat)>

  /** `keys.count(k)`: how often `k` occurs, which is its multiplicity in the multiset of keys. */
  function Count(keys: seq<string>, k: string): (n: nat)
    ensures n == multiset(keys)[k]
  {
    if |keys| == 0 then 0
    else
      assert keys == [keys[0]] + keys[1..];
      (if keys[0] == k then 1 else 0) + Count(keys[1..], k)
  }

  function KeysOf(h: Hist): (ks: seq<string>)
    ensures |ks| == |h|
    ensures forall i :: 0 <= i < |h| ==> ks[i] == h[i].0
  {
    Seqs.Map((p: (string, nat)) => p.0, h)
  }

  /** Keys strictly ascending, so in particular no key occurs twice. */
  predicate Ascending(h: Hist) {
    forall i, j :: 0 <= i < j < |h| ==> Less(h[i].0, h[j].0)
  }

  /** Sum of the counts. */
  function Total(h: Hist): nat {
    if |h| == 0 then 0 else h[0].1 + Total(h[1..])
  }

  /** The count stored for `k`, or 0 when `k` is not a key. */
  function Lookup(h: Hist, k: string): nat {
    if |h| == 0 then 0
    else if h[0].0 == k then h[0].1
    else Lookup(h[1..], k)
  }

  /** `h` is the histogram of `keys`: its keys are exactly the distinct keys,
      each paired with its number of occurrences, in ascending order. */
  ghost predicate IsHistogramOf(h: Hist, keys: seq<string>) {
    && Ascending(h)
    && (forall k :: k in KeysOf(h) <==> k in keys)
    && (forall i :: 0 <= i < |h| ==> h[i].1 == Count(keys, h[i].0))
  }

  lemma AscendingTail(h: Hist)
    requires Ascending(h) && |h| > 0
    ensures Ascending(h[1..])
    ensures forall k :: k in KeysOf(h[1..]) ==> Less(h[0].0, k)
  {
    forall k | k in KeysOf(h[1..])
      ensures Less(h[0].0, k)
    {
      var i :| 0 <= i < |h[1..]| && KeysOf(h[1..])[i] == k;
      assert h[1..][i] == h[i + 1];
    }
  }

  /** In an ascending histogram the stored count of a present key is found by `Lookup`. */
  lemma {:induction false} LookupAt(h: Hist, i: int)
    requires Ascending(h) && 0 <= i < |h|
    ensures Lookup(h, h[i].0) == h[i].1
    decreases |h|
  {
    if i > 0 {
      assert Less(h[0].0, h[i].0);
      LessIrreflexive(h[0].0);
      assert h[1..][i - 1] == h[i];
      LookupAt(h[1..], i - 1);
    }
  }

  lemma {:induction false} LookupAbsent(h: Hist, k: string)
    requires k !in KeysOf(h)
    ensures Lookup(h, k) == 0
    decreases |h|
  {
    if |h| > 0 {
      assert KeysOf(h)[0] == h[0].0;
      assert forall j :: j in KeysOf(h[1..]) ==> j in KeysOf(h) by {
        forall j | j in KeysOf(h[1..])
          ensures j in KeysOf(h)
        {
          var m :| 0 <= m < |h[1..]| && KeysOf(h[1..])[m] == j;
          assert KeysOf(h)[m + 1] == j;
        }
      }
      LookupAbsent(h[1..], k);
    }
  }

  /** Putting a pair in front of an ascending histogram whose keys are all above its own keeps it ascending. */
  lemma ConsAscending(x: (string, nat), t: Hist)
    requires Ascending(t)
    requires forall k :: k in KeysOf(t) ==> Less(x.0, k)
    ensures Ascending([x] + t)
    ensures KeysOf([x] + t) == [x.0] + KeysOf(t)
  {
    var r := [x] + t;
    forall j | 0 < j < |r|
      ensures Less(x.0, r[j].0)
    {
      assert r[j].0 == KeysOf(t)[j - 1];
    }
  }

  /** A key below the first key of an ascending histogram is not in it. */
  lemma BelowFirstAbsent(h: Hist, k: string)
    requires Ascending(h) && |h| > 0 && Less(k, h[0].0)
    ensures k !in KeysOf(h)
  {
    if k in KeysOf(h) {
      var i :| 0 <= i < |h| && KeysOf(h)[i] == k;
      if i > 0 {
        LessTransitive(k, h[0].0, h[i].0);
      }
      LessIrreflexive(k);
    }
  }

  /** Adds one occurrence of `k` to an ascending histogram. */
  function Insert(h: Hist, k: string): (r: Hist)
    ensures Total(r) == Total(h) + 1
    decreases |h|
  {
    if |h| == 0 || Less(k, h[0].0) then [(k, 1)] + h
    else if h[0].0 == k then [(k, h[0].1 + 1)] + h[1..]
    else [h[0]] + Insert(h[1..], k)
  }

  lemma {:induction false} InsertAscending(h: Hist, k: string)
    requires Ascending(h)
    ensures Ascending(Insert(h, k))
    ensures forall j :: j in KeysOf(Insert(h, k)) <==> j in KeysOf(h) || j == k
    decreases |h|
  {
    if |h| == 0 {
      assert Insert(h, k) == [(k, 1)];
      assert KeysOf([(k, 1)]) == [k];
    } else if Less(k, h[0].0) {
      forall j | j in KeysOf(h)
        ensures Less(k, j)
      {
        AtLeastFirst(h, j);
        if j != h[0].0 {
          LessTransitive(k, h[0].0, j);
        }
      }
      ConsAscending((k, 1), h);
    } else if h[0].0 == k {
      KeysCons(h);
      AscendingTail(h);
      ConsAscending((k, h[0].1 + 1), h[1..]);
    } else {
      KeysCons(h);
      AscendingTail(h);
      InsertAscending(h[1..], k);
      LessTotal(k, h[0].0);
      ConsAscending(h[0], Insert(h[1..], k));
    }
  }

  lemma {:induction false} InsertLookup(h: Hist, k: string, j: string)
    requires Ascending(h)
    ensures Lookup(Insert(h, k), j) == Lookup(h, j) + (if j == k then 1 else 0)
    decreases |h|
  {
    if |h| > 0 {
      if Less(k, h[0].0) {
        assert Insert(h, k)[1..] == h;
        if j == k {
          BelowFirstAbsent(h, k);
          LookupAbsent(h, k);
        }
      } else if h[0].0 == k {
        assert Insert(h, k)[1..] == h[1..];
      } else {
        assert Insert(h, k)[1..] == Insert(h[1..], k);
        AscendingTail(h);
        InsertLookup(h[1..], k, j);
      }
    }
  }

  /** Reference computation: the histogram of `keys`, one key at a time. */
  function Tally(keys: seq<string>): (r: Hist)
    ensures Ascending(r)
    ensures forall k :: k in KeysOf(r) <==> k in keys
    ensures forall k :: Lookup(r, k) == Count(keys, k)
    ensures Total(r) == |keys|
    decreases |keys|
  {
    if |keys| == 0 then []
    else
      var t := Tally(keys[1..]);
      assert keys == [keys[0]] + keys[1..];
      InsertAscending(t, keys[0]);
      assert forall j :: Lookup(Insert(t, keys[0]), j) == Count(keys, j) by {
        forall j {
          InsertLookup(t, keys[0], j);
        }
      }
      Insert(t, keys[0])
  }

  /** The sidebar histogram of a list of post tags. */
  function TagHistogram(tags: seq<string>): (r: Hist)
    ensures IsHistogramOf(r, CapitalizeAll(tags))
  {
    var r := Tally(CapitalizeAll(tags));
    assert forall i :: 0 <= i < |r| ==> Lookup(r, r[i].0) == r[i].1 by {
      forall i | 0 <= i < |r| {
        LookupAt(r, i);
      }
    }
    r
  }

  lemma KeysCons(h: Hist)
    requires |h| > 0
    ensures KeysOf(h) == [h[0].0] + KeysOf(h[1..])
  {
  }

  /** Every key of an ascending histogram is its first key or above it. */
  lemma AtLeastFirst(h: Hist, k: string)
    requires Ascending(h) && k in KeysOf(h)
    ensures k == h[0].0 || Less(h[0].0, k)
  {
    KeysCons(h);
    AscendingTail(h);
  }

  /** Two ascending histograms with the same keys list them in the same order. */
  lemma {:induction false} AscendingKeysUnique(h1: Hist, h2: Hist)
    requires Ascending(h1) && Ascending(h2)
    requires forall k :: k in KeysOf(h1) <==> k in KeysOf(h2)
    ensures KeysOf(h1) == KeysOf(h2)
    decreases |h1|
  {
    if |h1| > 0 {
      KeysCons(h1);
      assert h1[0].0 in KeysOf(h1);
      assert |KeysOf(h2)| > 0;
    }
    if |h2| > 0 {
      KeysCons(h2);
      assert h2[0].0 in KeysOf(h2);
      assert |KeysOf(h1)| > 0;
    }
    if |h1| > 0 && |h2| > 0 {
      var a, b := h1[0].0, h2[0].0;
      assert a in KeysOf(h1) && b in KeysOf(h2) by {
        KeysCons(h1);
        KeysCons(h2);
      }
      AtLeastFirst(h2, a);
      AtLeastFirst(h1, b);
      if a != b {
        LessAsymmetric(a, b);
      }
      KeysCons(h1);
      KeysCons(h2);
      AscendingTail(h1);
      AscendingTail(h2);
      forall k
        ensures k in KeysOf(h1[1..]) <==> k in KeysOf(h2[1..])
      {
        LessIrreflexive(a);
        if k in KeysOf(h1[1..]) {
          assert Less(a, k) && k in KeysOf(h1);
        }
        if k in KeysOf(h2[1..]) {
          assert Less(b, k) && k in KeysOf(h2);
        }
      }
      AscendingKeysUnique(h1[1..], h2[1..]);
    }
  }

  /** There is only one histogram of a list of keys. */
  lemma HistogramUnique(h1: Hist, h2: Hist, keys: seq<string>)
    requires IsHistogramOf(h1, keys) && IsHistogramOf(h2, keys)
    ensures h1 == h2
  {
    AscendingKeysUnique(h1, h2);
    forall i | 0 <= i < |h1|
      ensures h1[i] == h2[i]
    {
      assert KeysOf(h1)[i] == KeysOf(h2)[i];
    }
  }

  /** The histogram only sees how often each key occurs, not where. */
  lemma HistogramOfPermutation(h: Hist, a: seq<string>, b: seq<string>)
    requires IsHistogramOf(h, a) && multiset(a) == multiset(b)
    ensures IsHistogramOf(h, b)
  {
    forall k
      ensures k in a <==> k in b
    {
      assert k in a <==> k in multiset(a);
      assert k in b <==> k in multiset(b);
    }
  }

  /** Every histogram of `keys` accounts for all of them: the counts sum to their number. */
  lemma HistogramTotal(h: Hist, keys: seq<string>)
    requires IsHistogramOf(h, keys)
    ensures Total(h) == |keys|
  {
    var t := Tally(keys);
    assert IsHistogramOf(t, keys) by {
      forall i | 0 <= i < |t|
        ensures t[i].1 == Count(keys, t[i].0)
      {
        LookupAt(t, i);
      }
    }
    HistogramUnique(h, t, keys);
  }

  /** Every count in a histogram is at least one. */
  lemma HistogramCountsPositive(h: Hist, keys: seq<string>, i: int)
    requires IsHistogramOf(h, keys) && 0 <= i < |h|
    ensures h[i].1 >= 1
  {
    assert h[i].0 in KeysOf(h);
    assert h[i].0 in multiset(keys);
  }

  /** A tag is a key of the sidebar exactly when some post's capitalized tag equals it. */
  lemma TagHistogramCoverage(tags: seq<string>, k: string)
    ensures k in KeysOf(TagHistogram(tags)) <==> exists i :: 0 <= i < |tags| && Capitalize(tags[i]) == k
  {
    var caps := CapitalizeAll(tags);
    if k in caps {
      var i :| 0 <= i < |caps| && caps[i] == k;
      assert Capitalize(tags[i]) == k;
    }
  }

  /** The sidebar histogram is the same for any ordering of the same tags. */
  lemma TagHistogramOrderIndependent(a: seq<string>, b: seq<string>)
    requires multiset(a) == multiset(b)
    ensures TagHistogram(a) == TagHistogram(b)
  {
    Seqs.MapPreservesMultiset(Capitalize, a, b);
    HistogramOfPermutation(TagHistogram(a), CapitalizeAll(a), CapitalizeAll(b));
    HistogramUnique(TagHistogram(a), TagHistogram(b), CapitalizeAll(b));
  }

  /** The sidebar count shown for any tag `k`: the number of posts whose capitalized tag is `k`, or 0. */
  lemma TagHistogramLookup(tags: seq<string>, k: string)
    ensures Lookup(TagHistogram(tags), k) == Count(CapitalizeAll(tags), k)
  {
    var h := TagHistogram(tags);
    if k in KeysOf(h) {
      var i :| 0 <= i < |h| && KeysOf(h)[i] == k;
      LookupAt(h, i);
    } else {
      LookupAbsent(h, k);
    }
  }

  /** One more post with tag `t` adds one to the count of its capitalized tag and to nothing else. */
  lemma TagHistogramAppend(tags: seq<string>, t: string, k: string)
    ensures Lookup(TagHistogram(tags + [t]), k)
            == Lookup(TagHistogram(tags), k) + (if k == Capitalize(t) then 1 else 0)
  {
    assert CapitalizeAll(tags + [t]) == CapitalizeAll(tags) + [Capitalize(t)];
    TagHistogramLookup(tags, k);
    TagHistogramLookup(tags + [t], k);
  }
}
