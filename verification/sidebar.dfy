/**
 The sidebar computation as each route writes it: capitalize every tag, take
 the set of distinct tags, count each one with `list.count` while iterating
 the set, zip the set with the counts, and sort the pairs by tag.
 */
module Sidebar {
  import opened Text
  import opened StringOrder
  import opened Histogram
  import Seqs

  /** Places `p` among ascending pairs by its key: one step of sorting by `t[0]`. */
  function InsertByKey(s: Hist, p: (string, nat)): (r: Hist)
    ensures multiset(r) == multiset(s) + multiset{p}
    decreases |s|
  {
    if |s| == 0 || Less(p.0, s[0].0) then [p] + s
    else
      assert s == [s[0]] + s[1..];
      [s[0]] + InsertByKey(s[1..], p)
  }

  lemma {:induction false} InsertByKeyAscending(s: Hist, p: (string, nat))
    requires Ascending(s) && p.0 !in KeysOf(s)
    ensures Ascending(InsertByKey(s, p))
    ensures forall k :: k in KeysOf(InsertByKey(s, p)) <==> k in KeysOf(s) || k == p.0
    decreases |s|
  {
    if |s| == 0 {
      assert InsertByKey(s, p) == [p];
      assert KeysOf([p]) == [p.0];
    } else if Less(p.0, s[0].0) {
      forall k | k in KeysOf(s)
        ensures Less(p.0, k)
      {
        AtLeastFirst(s, k);
        if k != s[0].0 {
          LessTransitive(p.0, s[0].0, k);
        }
      }
      ConsAscending(p, s);
    } else {
      KeysCons(s);
      AscendingTail(s);
      InsertByKeyAscending(s[1..], p);
      var t := InsertByKey(s[1..], p);
      LessTotal(p.0, s[0].0);
      ConsAscending(s[0], t);
    }
  }

  /** `sorted(items, key=lambda t: t[0])` for pairs whose keys are all different. */
  method SortByKey(items: Hist) returns (sorted: Hist)
    requires Seqs.Distinct(KeysOf(items))
    ensures Ascending(sorted)
    ensures multiset(sorted) == multiset(items)
  {
    sorted := [];
    for i := 0 to |items|
      invariant Ascending(sorted)
      invariant multiset(sorted) == multiset(items[..i])
      invariant forall k :: k in KeysOf(sorted) <==> k in KeysOf(items[..i])
    {
      assert items[..i + 1] == items[..i] + [items[i]];
      assert KeysOf(items[..i + 1]) == KeysOf(items[..i]) + [items[i].0];
      assert items[i].0 !in KeysOf(items[..i]);
      InsertByKeyAscending(sorted, items[i]);
      sorted := InsertByKey(sorted, items[i]);
    }
    assert items[..|items|] == items;
  }

  /** `zip(tags, tag_num)`: pairs the i-th distinct tag with the i-th count. */
  function Zip(keys: seq<string>, counts: seq<nat>): (r: Hist)
    requires |keys| == |counts|
    ensures KeysOf(r) == keys
    ensures forall i :: 0 <= i < |r| ==> r[i].1 == counts[i]
  {
    seq(|keys|, i requires 0 <= i < |keys| => (keys[i], counts[i]))
  }

  /** The loop that fills `tagss`: every post's tag, capitalized, in listing order. */
  method CapitalizeTags(tags: seq<string>) returns (tagss: seq<string>)
    ensures |tagss| == |tags|
    ensures forall i :: 0 <= i < |tags| ==> IsCapitalizationOf(tagss[i], tags[i])
    ensures tagss == CapitalizeAll(tags)
  {
    tagss := [];
    for i := 0 to |tags|
      invariant tagss == CapitalizeAll(tags[..i])
    {
      tagss := tagss + [Capitalize(tags[i])];
    }
    assert tags[..|tags|] == tags;
  }

  /** The loop over `set(tagss)` that appends `tagss.count(i)` to `tag_num`.
      Python's set iteration order is unspecified, and string hashing varies
      between runs, so the distinct tags are visited in an arbitrary order.
      `order` records it. The route walks the same set again in
      `zip(tags, tag_num)`. Two walks over one unmodified set see the same
      order, so `order` stands for both. */
  method CountDistinct(tagss: seq<string>) returns (order: seq<string>, tagNum: seq<nat>)
    ensures Seqs.Distinct(order)
    ensures forall t :: t in order <==> t in tagss
    ensures |tagNum| == |order|
    ensures forall i :: 0 <= i < |order| ==> tagNum[i] == multiset(tagss)[order[i]]
  {
    var distinct := set t | t in tagss;
    order, tagNum := [], [];
    var rest := distinct;
    while rest != {}
      invariant rest <= distinct
      invariant Seqs.Distinct(order)
      invariant forall t :: t in order <==> t in distinct && t !in rest
      invariant |tagNum| == |order|
      invariant forall i :: 0 <= i < |order| ==> tagNum[i] == Count(tagss, order[i])
      decreases rest
    {
      var t :| t in rest;
      order := order + [t];
      tagNum := tagNum + [Count(tagss, t)];
      rest := rest - {t};
    }
  }

  /** The sidebar's `dict_tag`, computed as the route code does; whatever order
      the set is iterated in, the result is the one histogram of the tags. */
  method SidebarTags(tags: seq<string>) returns (dictTag: Hist)
    ensures IsHistogramOf(dictTag, CapitalizeAll(tags))
    ensures dictTag == TagHistogram(tags)
  {
    var tagss := CapitalizeTags(tags);
    var order, tagNum := CountDistinct(tagss);
    // The second walk over the set, inside `zip`, sees the same `order`.
    // `dict(...)` is folded into the sort: the keys are distinct, so the dict's
    // items are these pairs in some order, and the sort accepts any order.
    var d := Zip(order, tagNum);
    dictTag := SortByKey(d);
    SortedZipIsHistogram(order, tagNum, tagss, dictTag);
    HistogramUnique(dictTag, TagHistogram(tags), tagss);
  }

  /** Sorting the zipped (tag, count) pairs yields the histogram, whatever order the tags were zipped in. */
  lemma SortedZipIsHistogram(order: seq<string>, tagNum: seq<nat>, tagss: seq<string>, sorted: Hist)
    requires |order| == |tagNum|
    requires forall t :: t in order <==> t in tagss
    requires forall i :: 0 <= i < |order| ==> tagNum[i] == Count(tagss, order[i])
    requires Ascending(sorted) && multiset(sorted) == multiset(Zip(order, tagNum))
    ensures IsHistogramOf(sorted, tagss)
  {
    var d := Zip(order, tagNum);
    forall k
      ensures k in KeysOf(sorted) <==> k in tagss
    {
      if k in KeysOf(sorted) {
        var j :| 0 <= j < |sorted| && KeysOf(sorted)[j] == k;
        assert sorted[j] in multiset(d);
        var m :| 0 <= m < |d| && d[m] == sorted[j];
        assert KeysOf(d)[m] == order[m];
      }
      if k in tagss {
        var m :| 0 <= m < |order| && order[m] == k;
        assert KeysOf(d)[m] == k;
        assert d[m] in multiset(sorted);
        var j :| 0 <= j < |sorted| && sorted[j] == d[m];
        assert KeysOf(sorted)[j] == k;
      }
    }
    forall j | 0 <= j < |sorted|
      ensures sorted[j].1 == Count(tagss, sorted[j].0)
    {
      assert sorted[j] in multiset(d);
      var m :| 0 <= m < |d| && d[m] == sorted[j];
      assert KeysOf(d)[m] == order[m];
    }
  }
}
