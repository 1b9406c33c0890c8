/** Sorted (sample index, value) columns and their restriction to the samples of one node. */
module Orderings {
  import opened Seqs

  datatype Entry = Entry(index: nat, value: real)

  predicate Sorted(o: seq<Entry>) {
    forall j, k :: 0 <= j < k < |o| ==> o[j].value <= o[k].value
  }

  predicate IndicesBelow(o: seq<Entry>, n: nat) {
    forall k :: 0 <= k < |o| ==> o[k].index < n
  }

  function Indices(o: seq<Entry>): (x: seq<nat>)
    ensures |x| == |o| && forall k :: 0 <= k < |o| ==> x[k] == o[k].index
  {
    seq(|o|, k requires 0 <= k < |o| => o[k].index)
  }

  ghost predicate Matches(o: seq<Entry>, column: seq<real>) {
    forall k :: 0 <= k < |o| ==> o[k].index < |column| && o[k].value == column[o[k].index]
  }

  /** `o` lists every position of `column` exactly once, by ascending value. */
  ghost predicate IsOrdering(o: seq<Entry>, column: seq<real>) {
    && Matches(o, column)
    && Sorted(o)
    && forall i: nat :: i < |column| ==> multiset(Indices(o))[i] == 1
  }

  // ---- sorting a column -------------------------------------------------------------------

  function Entries(column: seq<real>): (r: seq<Entry>)
    ensures |r| == |column| && forall i :: 0 <= i < |r| ==> r[i] == Entry(i, column[i])
  {
    seq(|column|, i requires 0 <= i < |column| => Entry(i, column[i]))
  }

  /** Where `e` goes in the sorted `o`: behind every entry that is not larger. */
  function InsertPos(e: Entry, o: seq<Entry>): (p: nat)
    ensures p <= |o|
    ensures forall j :: 0 <= j < p ==> o[j].value <= e.value
    ensures p < |o| ==> e.value < o[p].value
  {
    if o == [] || e.value < o[0].value then 0 else 1 + InsertPos(e, o[1..])
  }

  function SortEntries(o: seq<Entry>): (r: seq<Entry>)
    ensures |r| == |o|
  {
    if o == [] then []
    else
      var e := o[|o| - 1];
      var r := SortEntries(o[..|o| - 1]);
      InsertAt(r, InsertPos(e, r), e)
  }

  function InsertAt(o: seq<Entry>, p: nat, e: Entry): (r: seq<Entry>)
    requires p <= |o|
    ensures |r| == |o| + 1
    ensures forall k :: 0 <= k < |r| ==> r[k] == if k < p then o[k] else if k == p then e else o[k - 1]
  {
    o[..p] + [e] + o[p..]
  }

  lemma InsertKeepsSorted(e: Entry, o: seq<Entry>)
    requires Sorted(o)
    ensures Sorted(InsertAt(o, InsertPos(e, o), e))
  {
    var p := InsertPos(e, o);
    var r := InsertAt(o, p, e);
    forall j, k | 0 <= j < k < |r|
      ensures r[j].value <= r[k].value
    {
      if p < |o| && k > p {
        assert o[p].value <= o[k - 1].value;
      }
    }
  }

  lemma IndicesInsert(o: seq<Entry>, p: nat, e: Entry)
    requires p <= |o|
    ensures multiset(Indices(InsertAt(o, p, e))) == multiset(Indices(o)) + multiset{e.index}
  {
    var x := Indices(o);
    assert Indices(InsertAt(o, p, e)) == x[..p] + [e.index] + x[p..];
    assert multiset(x[..p] + [e.index] + x[p..]) == multiset(x[..p]) + multiset{e.index} + multiset(x[p..]);
    assert x == x[..p] + x[p..];
  }

  lemma InsertKeepsColumn(o: seq<Entry>, p: nat, column: seq<real>)
    requires column != [] && p <= |o|
    requires var n := |column| - 1; Matches(o, column[..n])
    requires forall i: nat :: i < |column| - 1 ==> multiset(Indices(o))[i] == 1
    ensures var n := |column| - 1;
            var r := InsertAt(o, p, Entry(n, column[n]));
            Matches(r, column) && forall i: nat :: i < |column| ==> multiset(Indices(r))[i] == 1
  {
    var n := |column| - 1;
    IndicesInsert(o, p, Entry(n, column[n]));
    CountZero(Indices(o), n);
  }

  lemma {:induction false} SortUnfolds(column: seq<real>)
    requires column != []
    ensures var n := |column| - 1;
            var e, r := Entry(n, column[n]), SortEntries(Entries(column[..n]));
            InsertPos(e, r) <= |r| && SortEntries(Entries(column)) == InsertAt(r, InsertPos(e, r), e)
  {
    var n := |column| - 1;
    assert Entries(column)[..n] == Entries(column[..n]);
  }

  lemma SortStart()
    ensures IsOrdering(SortEntries(Entries([])), [])
  {
  }

  /** Sorting the entries of a column gives an ordering of that column. */
  lemma {:induction false} SortIsOrdering(column: seq<real>)
    ensures IsOrdering(SortEntries(Entries(column)), column)
  {
    hide Matches, Sorted, InsertAt, InsertPos, SortEntries;
    SortStart();
    if column != [] {
      var n := |column| - 1;
      SortIsOrdering(column[..n]);
      SortUnfolds(column);
      var e, r := Entry(n, column[n]), SortEntries(Entries(column[..n]));
      InsertKeepsSorted(e, r);
      InsertKeepsColumn(r, InsertPos(e, r), column);
    }
  }

  lemma {:induction false} OrderingIsPermutation(o: seq<Entry>, column: seq<real>)
    requires IsOrdering(o, column)
    ensures multiset(Range(|column|)) == multiset(Indices(o)) && |o| == |column|
  {
    var x, all := Indices(o), Range(|column|);
    RangeIsDistinct(|column|);
    ghost var m, n := multiset(x), multiset(all);
    forall i: nat
      ensures m[i] == n[i]
    {
      CountZero(x, i);
      CountZero(all, i);
      assert n[i] <= 1;
      if i < |column| {
        assert all[i] == i;
      }
    }
    assert m == n;
    assert |m| == |x| && |n| == |all|;
  }

  lemma SortedFrom(o: seq<Entry>, i: nat)
    requires Sorted(o) && i < |o|
    ensures forall k :: i < k < |o| ==> o[i].value <= o[k].value
  {
  }

  /** Positions with equal values keep their order. */
  ghost predicate TiesByIndex(o: seq<Entry>) {
    forall j, k :: 0 <= j < k < |o| && o[j].value == o[k].value ==> o[j].index < o[k].index
  }

  lemma {:induction false} SortIsStable(column: seq<real>)
    ensures TiesByIndex(SortEntries(Entries(column)))
    ensures IndicesBelow(SortEntries(Entries(column)), |column|)
  {
    SortIsOrdering(column);
    if column != [] {
      var n := |column| - 1;
      SortIsStable(column[..n]);
      SortIsOrdering(column[..n]);
      assert Entries(column)[..n] == Entries(column[..n]);
      var e, r := Entry(n, column[n]), SortEntries(Entries(column[..n]));
      InsertKeepsTies(e, r);
    }
  }

  lemma InsertKeepsTies(e: Entry, r: seq<Entry>)
    requires TiesByIndex(r) && IndicesBelow(r, e.index) && Sorted(r)
    ensures TiesByIndex(InsertAt(r, InsertPos(e, r), e))
  {
    var p := InsertPos(e, r);
    if p < |r| {
      SortedFrom(r, p);
    }
    hide Sorted, InsertPos, InsertAt;
    var s := InsertAt(r, p, e);
    forall j, k | 0 <= j < k < |s| && s[j].value == s[k].value
      ensures s[j].index < s[k].index
    {
      InsertTieAt(e, r, p, j, k);
    }
  }

  lemma InsertTieAt(e: Entry, r: seq<Entry>, p: nat, j: nat, k: nat)
    requires TiesByIndex(r) && IndicesBelow(r, e.index)
    requires p <= |r| && forall i :: p <= i < |r| ==> e.value < r[i].value
    requires var s := InsertAt(r, p, e); j < k < |s| && s[j].value == s[k].value
    ensures var s := InsertAt(r, p, e); s[j].index < s[k].index
  {
    hide TiesByIndex;
    if j != p && k != p {
      TieAt(r, if j < p then j else j - 1, if k < p then k else k - 1);
    }
  }

  lemma TieAt(r: seq<Entry>, j: nat, k: nat)
    requires TiesByIndex(r) && j < k < |r| && r[j].value == r[k].value
    ensures r[j].index < r[k].index
  {
  }

  ghost predicate SortsColumns(sort: seq<Entry> -> seq<Entry>) {
    forall column: seq<real> :: IsOrdering(sort(Entries(column)), column)
  }

  lemma SortEntriesSorts()
    ensures SortsColumns(SortEntries)
  {
    forall column: seq<real>
      ensures IsOrdering(SortEntries(Entries(column)), column)
    {
      SortIsOrdering(column);
    }
  }

  function StableSort(): (sort: seq<Entry> -> seq<Entry>)
    ensures SortsColumns(sort)
  {
    SortEntriesSorts();
    SortEntries
  }

  /** Any deterministic sort by value, however it orders equal values. */
  type Sorter = sort: seq<Entry> -> seq<Entry> | SortsColumns(sort) witness StableSort()

  // ---- restriction to a set of samples ---------------------------------------------------------

  /** The boolean vector of the samples in `samples`. */
  function Mask(n: nat, samples: seq<nat>): (m: seq<bool>)
    ensures |m| == n && forall i :: 0 <= i < n ==> m[i] == (i in samples)
  {
    seq(n, i => i in samples)
  }

  function Filter(o: seq<Entry>, mask: seq<bool>): (r: seq<Entry>)
    requires IndicesBelow(o, |mask|)
    ensures |r| <= |o|
    ensures |r| == |o| ==> r == o
    ensures IndicesBelow(r, |mask|)
  {
    if o == [] then []
    else
      var e := o[|o| - 1];
      Filter(o[..|o| - 1], mask) + if mask[e.index] then [e] else []
  }

  lemma FilterSnoc(o: seq<Entry>, k: nat, mask: seq<bool>)
    requires IndicesBelow(o, |mask|) && k < |o|
    ensures Filter(o[..k + 1], mask) == Filter(o[..k], mask) + if mask[o[k].index] then [o[k]] else []
  {
    assert o[..k + 1][..k] == o[..k];
  }

  lemma {:induction false} FilterMembers(o: seq<Entry>, mask: seq<bool>, e: Entry)
    requires IndicesBelow(o, |mask|)
    ensures e in Filter(o, mask) <==> e in o && mask[e.index]
  {
    if o != [] {
      var o', d := o[..|o| - 1], o[|o| - 1];
      FilterMembers(o', mask, e);
      assert o == o' + [d];
    }
  }

  /** Restricting twice, to a set and then to a subset of it, is restricting once. */
  lemma {:induction false} FilterTwice(o: seq<Entry>, big: seq<bool>, small: seq<bool>)
    requires IndicesBelow(o, |big|) && |big| == |small|
    requires forall i :: 0 <= i < |big| && small[i] ==> big[i]
    ensures Filter(Filter(o, big), small) == Filter(o, small)
  {
    if o != [] {
      var o', e := o[..|o| - 1], o[|o| - 1];
      FilterTwice(o', big, small);
      var f := Filter(o', big);
      if big[e.index] {
        assert (f + [e])[..|f|] == f;
      } else {
        assert Filter(o, big) == f;
      }
    }
  }

  lemma {:induction false} FilterKeepsSorted(o: seq<Entry>, mask: seq<bool>)
    requires IndicesBelow(o, |mask|) && Sorted(o)
    ensures Sorted(Filter(o, mask))
  {
    if o != [] {
      var o', e := o[..|o| - 1], o[|o| - 1];
      FilterKeepsSorted(o', mask);
      var r' := Filter(o', mask);
      forall k | 0 <= k < |r'|
        ensures r'[k].value <= e.value
      {
        FilterMembers(o', mask, r'[k]);
        var j :| 0 <= j < |o'| && o'[j] == r'[k];
        assert o[j].value <= o[|o| - 1].value;
      }
    }
  }

  lemma {:induction false} FilterCount(o: seq<Entry>, mask: seq<bool>, i: nat)
    requires IndicesBelow(o, |mask|) && i < |mask|
    ensures multiset(Indices(Filter(o, mask)))[i] == if mask[i] then multiset(Indices(o))[i] else 0
  {
    if o != [] {
      var o', e := o[..|o| - 1], o[|o| - 1];
      FilterCount(o', mask, i);
      var r' := Filter(o', mask);
      assert Indices(o) == Indices(o') + [e.index];
      assert Indices(r' + [e]) == Indices(r') + [e.index];
      assert Filter(o, mask) == if mask[e.index] then r' + [e] else r';
    }
  }

  /** The ordering of a column restricted to the samples of a node. */
  function NodeOrder(o: seq<Entry>, n: nat, samples: seq<nat>): seq<Entry>
    requires IndicesBelow(o, n)
  {
    Filter(o, Mask(n, samples))
  }

  /** A node's ordering lists the node's samples, each once, by ascending value. */
  lemma NodeOrderProperties(o: seq<Entry>, column: seq<real>, samples: seq<nat>)
    requires IsOrdering(o, column)
    requires Distinct(samples) && Below(samples, |column|)
    ensures IndicesBelow(o, |column|)
    ensures var r := NodeOrder(o, |column|, samples);
            && Matches(r, column) && Sorted(r)
            && multiset(Indices(r)) == multiset(samples)
            && |r| == |samples|
  {
    var mask := Mask(|column|, samples);
    var r := Filter(o, mask);
    FilterKeepsSorted(o, mask);
    assert Matches(r, column) by {
      forall k | 0 <= k < |r|
        ensures r[k].index < |column| && r[k].value == column[r[k].index]
      {
        FilterMembers(o, mask, r[k]);
      }
    }
    forall i: nat
      ensures multiset(Indices(r))[i] == multiset(samples)[i]
    {
      CountZero(samples, i);
      if i < |column| {
        FilterCount(o, mask, i);
        assert multiset(samples)[i] <= 1;
      } else {
        CountZero(Indices(r), i);
      }
    }
    assert multiset(Indices(r)) == multiset(samples);
    assert |Indices(r)| == |multiset(Indices(r))|;
  }
}
