/** The middle of the sorted Match values, as the leader computes it. */
module RaftStatistics {
  import opened Collections
  import opened RaftTypes
  import opened RaftNode

  /** `matches` are the Match values of the distinct peers `ids`, in that order. */
  ghost predicate Tagged(prs: map<Id, Progress>, matches: seq<nat>, ids: seq<Id>) {
    && |matches| == |ids|
    && (forall i :: 0 <= i < |ids| ==> ids[i] in prs && prs[ids[i]].match_ == matches[i])
    && (forall i, j :: 0 <= i < j < |ids| ==> ids[i] != ids[j])
  }

  ghost predicate Sorted(s: seq<nat>) {
    forall i, j :: 0 <= i <= j < |s| ==> s[i] <= s[j]
  }

  /** sort.Slice on the collected values, by exchanging neighbours: the values of the same peers,
      in ascending order. */
  method SortMatches(ghost prs: map<Id, Progress>, matches: seq<nat>, ghost ids: seq<Id>)
    returns (sorted: seq<nat>, ghost order: seq<Id>)
    requires Tagged(prs, matches, ids)
    ensures Tagged(prs, sorted, order) && Sorted(sorted)
    ensures forall q :: q in order <==> q in ids
  {
    sorted, order := matches, ids;
    var i := 0;
    while i < |sorted|
      invariant 0 <= i <= |sorted| == |matches|
      invariant Tagged(prs, sorted, order) && Sorted(sorted[..i])
      invariant forall q :: q in order <==> q in ids
    {
      var j := i;
      while j > 0 && sorted[j] < sorted[j - 1]
        invariant 0 <= j <= i < |sorted| == |matches|
        invariant Tagged(prs, sorted, order)
        invariant forall a, b :: 0 <= a <= b <= i && b != j ==> sorted[a] <= sorted[b]
        invariant forall q :: q in order <==> q in ids
      {
        SwapKeeps(prs, sorted, order, j - 1, j);
        sorted, order := Swap(sorted, j - 1, j), Swap(order, j - 1, j);
        j := j - 1;
      }
      i := i + 1;
    }
    assert sorted[..i] == sorted;
  }

  lemma SwapKeeps(prs: map<Id, Progress>, s: seq<nat>, ids: seq<Id>, i: nat, j: nat)
    requires Tagged(prs, s, ids) && i < j < |s|
    ensures Tagged(prs, Swap(s, i, j), Swap(ids, i, j))
    ensures forall q :: q in Swap(ids, i, j) <==> q in ids
  {
    var t := Swap(ids, i, j);
    forall q | q in ids ensures q in t {
      var k :| 0 <= k < |ids| && ids[k] == q;
      assert t[if k == i then j else if k == j then i else k] == q;
    }
  }

  function Members(ids: seq<Id>): set<Id> {
    set q | q in ids
  }

  lemma {:induction false} DistinctSize(ids: seq<Id>)
    requires forall i, j :: 0 <= i < j < |ids| ==> ids[i] != ids[j]
    ensures |Members(ids)| == |ids|
  {
    if |ids| > 0 {
      var n := |ids| - 1;
      var front := ids[..n];
      DistinctSize(front);
      assert ids == front + [ids[n]];
      assert Members(ids) == Members(front) + {ids[n]};
      assert ids[n] !in front;
    } else {
      assert Members(ids) == {};
    }
  }

  lemma TaggedLength(prs: map<Id, Progress>, matches: seq<nat>, ids: seq<Id>)
    requires Tagged(prs, matches, ids) && forall q :: q in ids <==> q in prs
    ensures |matches| == |prs|
  {
    DistinctSize(ids);
    assert Members(ids) == prs.Keys;
    assert |prs| == |prs.Keys|;
  }

  /** Position `k` of the sorted values is the order statistic defined without sorting. */
  lemma SortedOrderStatistic(prs: map<Id, Progress>, sorted: seq<nat>, order: seq<Id>, k: nat)
    requires Tagged(prs, sorted, order) && Sorted(sorted) && k < |sorted|
    requires forall q :: q in order <==> q in prs
    ensures IsOrderStatistic(prs, k, sorted[k])
  {
    var v := sorted[k];
    var low, upTo := order[..k], order[..k + 1];
    DistinctSize(low);
    DistinctSize(upTo);
    assert Below(prs, v) <= Members(low) by {
      forall q | q in Below(prs, v) ensures q in low {
        assert q in order;
        var i :| 0 <= i < |order| && order[i] == q;
        assert sorted[i] < v;
        assert low[i] == q;
      }
    }
    SubsetSize(Below(prs, v), Members(low));
    assert Members(upTo) <= AtMost(prs, v);
    SubsetSize(Members(upTo), AtMost(prs, v));
    assert order[k] in prs && prs[order[k]].match_ == v;
  }
}
