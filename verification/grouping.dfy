/** Grouping positions of a sequence by key, the way the validator fills a
    `Dictionary<K, List<T>>`: walk the items in order; on a key not seen
    before, add an entry (a .NET `Dictionary` without removals enumerates
    its entries in insertion order); then append the item to its entry's
    list. Both the category menu and the report's row buckets are built
    this way. A group holds the positions of its items, not the items. */
module Grouping {

  datatype Group<K> = Group(key: K, members: seq<nat>)

  /** The keys of the groups, in order. */
  function Keys<K>(gs: seq<Group<K>>): (r: seq<K>)
    ensures |r| == |gs|
    ensures forall j :: 0 <= j < |gs| ==> r[j] == gs[j].key
  {
    if |gs| == 0 then [] else [gs[0].key] + Keys(gs[1..])
  }

  predicate Distinct<K(==)>(s: seq<K>) {
    forall a, b :: 0 <= a < b < |s| ==> s[a] != s[b]
  }

  /** One step of the loop: position `i` goes to the end of the group of
      key `k`, and a group for `k` is added at the end when there is none. */
  function Insert<K(==)>(gs: seq<Group<K>>, k: K, i: nat): seq<Group<K>> {
    if |gs| == 0 then [Group(k, [i])]
    else if gs[0].key == k then [Group(k, gs[0].members + [i])] + gs[1..]
    else [gs[0]] + Insert(gs[1..], k, i)
  }

  /** The groups after the loop has seen every position of `ks`, where
      `ks[i]` is the key of the item at position `i`. */
  function GroupBy<K(==)>(ks: seq<K>): seq<Group<K>> {
    if |ks| == 0 then []
    else Insert(GroupBy(ks[..|ks| - 1]), ks[|ks| - 1], |ks| - 1)
  }

  /** Reference definition: the distinct keys of `ks`, in order of first
      occurrence. */
  function FirstSeen<K(==)>(ks: seq<K>): (r: seq<K>)
    ensures |r| <= |ks|
  {
    if |ks| == 0 then []
    else
      var prior := FirstSeen(ks[..|ks| - 1]);
      if ks[|ks| - 1] in prior then prior else prior + [ks[|ks| - 1]]
  }

  /** Reference definition: the positions of `ks` holding key `k`, ascending. */
  function IndicesOf<K(==)>(ks: seq<K>, k: K): seq<nat> {
    if |ks| == 0 then []
    else IndicesOf(ks[..|ks| - 1], k) + (if ks[|ks| - 1] == k then [|ks| - 1] else [])
  }

  function SumSizes<K>(gs: seq<Group<K>>): nat {
    if |gs| == 0 then 0 else |gs[0].members| + SumSizes(gs[1..])
  }

  /** Exactly the positions holding `k` are listed, in ascending order. */
  lemma {:induction false} IndicesOfSpec<K>(ks: seq<K>, k: K)
    ensures forall i :: i in IndicesOf(ks, k) <==> 0 <= i < |ks| && ks[i] == k
    ensures forall a, b :: 0 <= a < b < |IndicesOf(ks, k)| ==> IndicesOf(ks, k)[a] < IndicesOf(ks, k)[b]
  {
    if |ks| > 0 {
      var prefix := ks[..|ks| - 1];
      IndicesOfSpec(prefix, k);
      var p := IndicesOf(prefix, k);
      assert forall a :: 0 <= a < |p| ==> p[a] in p;
    }
  }

  lemma {:induction false} IndicesOfAbsent<K>(ks: seq<K>, k: K)
    requires k !in ks
    ensures IndicesOf(ks, k) == []
  {
    if |ks| > 0 {
      IndicesOfAbsent(ks[..|ks| - 1], k);
    }
  }

  /** The first-seen keys are distinct and are exactly the keys of `ks`. */
  lemma {:induction false} FirstSeenSpec<K>(ks: seq<K>)
    ensures Distinct(FirstSeen(ks))
    ensures forall k :: k in FirstSeen(ks) <==> k in ks
  {
    if |ks| > 0 {
      var prefix := ks[..|ks| - 1];
      FirstSeenSpec(prefix);
      assert ks == prefix + [ks[|ks| - 1]];
    }
  }

  /** Inserting under a key that already has a group extends only that
      group; inserting under a new key adds one group at the end. */
  lemma {:induction false} InsertShape<K>(gs: seq<Group<K>>, k: K, i: nat)
    requires Distinct(Keys(gs))
    ensures k in Keys(gs) ==>
              && |Insert(gs, k, i)| == |gs|
              && forall j :: 0 <= j < |gs| ==>
                   Insert(gs, k, i)[j] == (if gs[j].key == k then Group(k, gs[j].members + [i]) else gs[j])
    ensures k !in Keys(gs) ==> Insert(gs, k, i) == gs + [Group(k, [i])]
  {
    if |gs| > 0 {
      assert Keys(gs[1..]) == Keys(gs)[1..];
      if gs[0].key != k {
        InsertShape(gs[1..], k, i);
      } else {
        forall j | 1 <= j < |gs| ensures gs[j].key != k {
          assert Keys(gs)[0] != Keys(gs)[j];
        }
      }
    }
  }

  /** The loop builds the reference grouping: one group per distinct key in
      first-seen order, each listing the positions of its key in order. */
  lemma {:induction false} GroupByMatchesReference<K>(ks: seq<K>)
    ensures Keys(GroupBy(ks)) == FirstSeen(ks)
    ensures forall j :: 0 <= j < |GroupBy(ks)| ==>
              GroupBy(ks)[j].members == IndicesOf(ks, GroupBy(ks)[j].key)
  {
    if |ks| > 0 {
      var n := |ks| - 1;
      var prefix, k := ks[..n], ks[n];
      var gs := GroupBy(prefix);
      GroupByMatchesReference(prefix);
      FirstSeenSpec(prefix);
      InsertShape(gs, k, n);
      var gs' := GroupBy(ks);
      assert gs' == Insert(gs, k, n);
      forall j | 0 <= j < |gs'|
        ensures gs'[j].members == IndicesOf(ks, gs'[j].key)
      {
        if j < |gs| {
          assert IndicesOf(ks, gs[j].key) == IndicesOf(prefix, gs[j].key) + (if k == gs[j].key then [n] else []);
        } else {
          IndicesOfAbsent(prefix, k);
        }
      }
      if k in Keys(gs) {
        assert Keys(gs') == Keys(gs);
      } else {
        assert Keys(gs') == Keys(gs) + [k];
      }
    }
  }

  /** Every position lands in exactly one group: the group of its key. */
  lemma EachPositionInOneGroup<K>(ks: seq<K>, i: nat)
    requires i < |ks|
    ensures exists j :: 0 <= j < |GroupBy(ks)| && GroupBy(ks)[j].key == ks[i]
    ensures forall j :: 0 <= j < |GroupBy(ks)| ==> (i in GroupBy(ks)[j].members <==> GroupBy(ks)[j].key == ks[i])
    ensures Distinct(Keys(GroupBy(ks)))
  {
    var gs := GroupBy(ks);
    GroupByMatchesReference(ks);
    FirstSeenSpec(ks);
    assert ks[i] in Keys(gs);
    var j :| 0 <= j < |gs| && Keys(gs)[j] == ks[i];
    forall j | 0 <= j < |gs| ensures i in gs[j].members <==> gs[j].key == ks[i] {
      IndicesOfSpec(ks, gs[j].key);
    }
  }

  lemma {:induction false} InsertSize<K>(gs: seq<Group<K>>, k: K, i: nat)
    ensures SumSizes(Insert(gs, k, i)) == SumSizes(gs) + 1
  {
    if |gs| > 0 {
      if gs[0].key == k {
        assert Insert(gs, k, i)[1..] == gs[1..];
      } else {
        InsertSize(gs[1..], k, i);
        assert Insert(gs, k, i)[1..] == Insert(gs[1..], k, i);
      }
    }
  }

  /** The group sizes add up to the number of positions. */
  lemma {:induction false} GroupByTotal<K>(ks: seq<K>)
    ensures SumSizes(GroupBy(ks)) == |ks|
  {
    if |ks| > 0 {
      GroupByTotal(ks[..|ks| - 1]);
      InsertSize(GroupBy(ks[..|ks| - 1]), ks[|ks| - 1], |ks| - 1);
    }
  }

  lemma {:induction false} DistinctCardinality<K>(s: seq<K>)
    requires Distinct(s)
    ensures |set x | x in s| == |s|
  {
    if |s| > 0 {
      var prefix := s[..|s| - 1];
      DistinctCardinality(prefix);
      assert (set x | x in s) == (set x | x in prefix) + {s[|s| - 1]};
    }
  }

  lemma SameElementsSameSet<K>(s: seq<K>, t: seq<K>)
    requires forall k :: k in s <==> k in t
    ensures (set k | k in s) == (set k | k in t)
  {
  }

  lemma DistinctKeyCount<K>(ks: seq<K>)
    ensures |FirstSeen(ks)| == |set k | k in ks|
  {
    var f := FirstSeen(ks);
    FirstSeenSpec(ks);
    DistinctCardinality(f);
    SameElementsSameSet(f, ks);
  }

  /** There is one group per distinct key. */
  lemma GroupByCount<K>(ks: seq<K>)
    ensures |GroupBy(ks)| == |set k | k in ks|
  {
    var gs := GroupBy(ks);
    GroupByMatchesReference(ks);
    assert |gs| == |Keys(gs)| == |FirstSeen(ks)|;
    DistinctKeyCount(ks);
  }

  /** The same count, against any set holding exactly the keys. */
  lemma GroupByCountOf<K>(ks: seq<K>, s: set<K>)
    requires forall k :: k in s <==> k in ks
    ensures |GroupBy(ks)| == |s|
  {
    GroupByCount(ks);
    assert s == set k | k in ks;
  }

  /** Groups come in the order in which their keys first occur. */
  lemma {:induction false} FirstSeenOrder<K>(ks: seq<K>)
    ensures forall a :: 0 <= a < |FirstSeen(ks)| ==> |IndicesOf(ks, FirstSeen(ks)[a])| > 0
    ensures forall a, b :: 0 <= a < b < |FirstSeen(ks)| ==>
              IndicesOf(ks, FirstSeen(ks)[a])[0] < IndicesOf(ks, FirstSeen(ks)[b])[0]
  {
    if |ks| > 0 {
      var n := |ks| - 1;
      var prefix, k := ks[..n], ks[n];
      FirstSeenOrder(prefix);
      FirstSeenSpec(prefix);
      var f := FirstSeen(prefix);
      forall a | 0 <= a < |f|
        ensures IndicesOf(ks, f[a]) == IndicesOf(prefix, f[a]) + (if k == f[a] then [n] else [])
        ensures IndicesOf(ks, f[a])[0] < n
      {
        IndicesOfSpec(prefix, f[a]);
        assert IndicesOf(prefix, f[a])[0] in IndicesOf(prefix, f[a]);
      }
      if k !in f {
        assert prefix == ks[..n];
        IndicesOfAbsent(prefix, k);
        assert IndicesOf(ks, k) == [n];
        assert FirstSeen(ks) == f + [k];
      }
    }
  }

  /** Every listed position is a position of `ks`. */
  lemma GroupByInRange<K>(ks: seq<K>)
    ensures forall j, m :: 0 <= j < |GroupBy(ks)| && 0 <= m < |GroupBy(ks)[j].members| ==> GroupBy(ks)[j].members[m] < |ks|
  {
    GroupByMatchesReference(ks);
    forall j, m | 0 <= j < |GroupBy(ks)| && 0 <= m < |GroupBy(ks)[j].members|
      ensures GroupBy(ks)[j].members[m] < |ks|
    {
      var members := GroupBy(ks)[j].members;
      IndicesOfSpec(ks, GroupBy(ks)[j].key);
      assert members[m] in members;
    }
  }

  /** One more position joins the group of its key. */
  lemma GroupByAppend<K>(ks: seq<K>, k: K)
    ensures GroupBy(ks + [k]) == Insert(GroupBy(ks), k, |ks|)
  {
    assert (ks + [k])[..|ks|] == ks;
  }
}
