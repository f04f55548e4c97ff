/** Which regions of a store overlap a given one (kv/raftstore/raftstore.go). */
module RegionOverlap {
  import opened Bytes
  import opened SplitCheck

  /** The keys from `start` up to `end`; an empty end is unbounded. */
  datatype Region = Region(id: nat, start: seq<byte>, end: seq<byte>)

  predicate Contains(r: Region, k: seq<byte>) {
    !Before(k, r.start) && !ExceedEndKey(k, r.end)
  }

  /** In byte order: at or after the start, and before the end if there is one. */
  lemma ContainsIff(r: Region, k: seq<byte>)
    ensures Contains(r, k) <==> !Less(k, r.start) && (r.end == [] || Less(k, r.end))
  {
    BeforeIsLess(k, r.start);
    BeforeIsLess(k, r.end);
  }

  /** The two have a key in common. */
  ghost predicate Overlap(a: Region, b: Region) {
    exists k :: Contains(a, k) && Contains(b, k)
  }

  predicate NonEmpty(r: Region) {
    !ExceedEndKey(r.start, r.end)
  }

  /** Byte order, as far as three keys are concerned. */
  lemma Order(a: seq<byte>, b: seq<byte>, c: seq<byte>)
    ensures !Before(a, a)
    ensures Before(a, b) ==> !Before(b, a)
    ensures a == b || Before(a, b) || Before(b, a)
    ensures Before(a, b) && Before(b, c) ==> Before(a, c)
  {
    BeforeIsLess(a, a);
    BeforeIsLess(a, b);
    BeforeIsLess(b, a);
    BeforeIsLess(b, c);
    BeforeIsLess(a, c);
    LessIrreflexive(a);
    LessTotal(a, b);
    if Less(a, b) {
      LessAsymmetric(a, b);
      if Less(b, c) {
        LessTransitive(a, b, c);
      }
    }
  }

  /** A key not past the end stays so when it is made smaller; one past the end when made larger. */
  lemma EndOrder(a: seq<byte>, b: seq<byte>, end: seq<byte>)
    ensures !Before(b, a) && ExceedEndKey(a, end) ==> ExceedEndKey(b, end)
  {
    Order(a, b, end);
    Order(b, end, a);
    Order(b, a, end);
  }

  /** Sharing a key is neither starting at or after the other's end, for two that hold any key. */
  lemma OverlapIff(a: Region, b: Region)
    ensures Overlap(a, b)
            <==> NonEmpty(a) && NonEmpty(b) && !ExceedEndKey(a.start, b.end) && !ExceedEndKey(b.start, a.end)
  {
    Order(a.start, b.start, a.start);
    if Overlap(a, b) {
      var k :| Contains(a, k) && Contains(b, k);
      EndOrder(a.start, k, a.end);
      EndOrder(a.start, k, b.end);
      EndOrder(b.start, k, a.end);
      EndOrder(b.start, k, b.end);
    } else if Before(a.start, b.start) {
      Order(b.start, a.start, b.start);
      assert !(Contains(b, b.start) && Contains(a, b.start));
    } else {
      assert !(Contains(a, a.start) && Contains(b, a.start));
    }
  }

  /** Region `i` starts before region `j` and has no key in common with it. */
  ghost predicate Apart(rs: seq<Region>, i: nat, j: nat)
    requires i < j < |rs|
  {
    Before(rs[i].start, rs[j].start) && !Overlap(rs[i], rs[j])
  }

  /** The regions of a store: by ascending start key, none empty, no two overlapping. */
  ghost predicate Tiling(rs: seq<Region>) {
    && (forall i {:trigger NonEmpty(rs[i])} :: 0 <= i < |rs| ==> NonEmpty(rs[i]))
    && (forall i: nat, j: nat {:trigger Apart(rs, i, j)} :: i < j < |rs| ==> Apart(rs, i, j))
  }

  /** An earlier region ends where a later one starts, or before. */
  lemma EndsBefore(rs: seq<Region>, i: nat, j: nat)
    requires Tiling(rs) && i < j < |rs|
    ensures ExceedEndKey(rs[j].start, rs[i].end)
  {
    Order(rs[i].start, rs[j].start, rs[j].start);
    Order(rs[j].start, rs[j].start, rs[j].start);
    assert Apart(rs, i, j) && NonEmpty(rs[j]);
    assert Contains(rs[j], rs[j].start);
  }

  /** The query starts before `r` ends, and `r` starts before the query ends. */
  predicate Hit(r: Region, q: Region) {
    !ExceedEndKey(q.start, r.end) && !ExceedEndKey(r.start, q.end)
  }

  function Hits(rs: seq<Region>, q: Region): seq<Region> {
    if rs == [] then [] else (if Hit(rs[0], q) then [rs[0]] else []) + Hits(rs[1..], q)
  }

  /** The regions that do overlap the query, in order. */
  ghost function Overlapping(rs: seq<Region>, q: Region): seq<Region> {
    if rs == [] then [] else (if Overlap(rs[0], q) then [rs[0]] else []) + Overlapping(rs[1..], q)
  }

  lemma {:induction false} HitsNone(rs: seq<Region>, q: Region)
    requires forall i :: 0 <= i < |rs| ==> !Hit(rs[i], q)
    ensures Hits(rs, q) == []
  {
    if rs != [] {
      HitsNone(rs[1..], q);
    }
  }

  /** The regions hit are a stretch of the list. */
  lemma HitsSlice(rs: seq<Region>, q: Region, lo: nat, hi: nat)
    requires lo <= hi <= |rs|
    requires forall i {:trigger Hit(rs[i], q)} :: 0 <= i < |rs| ==> (Hit(rs[i], q) <==> lo <= i < hi)
    ensures Hits(rs, q) == rs[lo..hi]
  {
    HitsFrom(rs, q, lo, hi, 0);
    assert rs[0..] == rs;
  }

  lemma {:induction false} HitsFrom(rs: seq<Region>, q: Region, lo: nat, hi: nat, i: nat)
    requires lo <= hi <= |rs| && i <= |rs|
    requires forall j {:trigger Hit(rs[j], q)} :: 0 <= j < |rs| ==> (Hit(rs[j], q) <==> lo <= j < hi)
    ensures Hits(rs[i..], q) == if i <= lo then rs[lo..hi] else if i <= hi then rs[i..hi] else []
    decreases |rs| - i
  {
    if i < |rs| {
      HitsFrom(rs, q, lo, hi, i + 1);
      assert rs[i..][1..] == rs[i + 1..] && rs[i..][0] == rs[i];
      assert Hit(rs[i], q) <==> lo <= i < hi;
    }
  }

  /** Where the descent and the test of the end key leave the ascent to begin: everything before
      ends by the query's start, nothing from there on does. */
  ghost predicate StartsAt(rs: seq<Region>, q: Region, lo: nat) {
    && lo <= |rs|
    && (forall i :: 0 <= i < lo ==> ExceedEndKey(q.start, rs[i].end))
    && (forall i :: lo <= i < |rs| ==> !ExceedEndKey(q.start, rs[i].end))
  }

  /** `p` is where the descent stops: the regions before it start at or before the query. */
  ghost predicate StopsAt(rs: seq<Region>, q: Region, p: nat) {
    && p <= |rs|
    && (forall i {:trigger rs[i]} :: 0 <= i < p ==> !Before(q.start, rs[i].start))
    && (forall i {:trigger rs[i]} :: p <= i < |rs| ==> Before(q.start, rs[i].start))
  }

  /** The region before the stop holds the query's start. */
  predicate Inside(rs: seq<Region>, q: Region, p: nat) {
    0 < p <= |rs| && !ExceedEndKey(q.start, rs[p - 1].end)
  }

  lemma EndsByStart(rs: seq<Region>, q: Region, p: nat, i: nat)
    requires Tiling(rs) && StopsAt(rs, q, p) && i < p - 1
    ensures ExceedEndKey(q.start, rs[i].end)
  {
    EndsBefore(rs, i, p - 1);
    EndOrder(rs[p - 1].start, q.start, rs[i].end);
  }

  lemma EndsAfterStart(rs: seq<Region>, q: Region, p: nat, i: nat)
    requires Tiling(rs) && StopsAt(rs, q, p) && p <= i < |rs|
    ensures !ExceedEndKey(q.start, rs[i].end)
  {
    Order(q.start, rs[i].start, q.start);
    assert NonEmpty(rs[i]);
    EndOrder(q.start, rs[i].start, rs[i].end);
  }

  /** The ascent begins right, whether the region found holds the query's start or not. */
  lemma AscentStart(rs: seq<Region>, q: Region, p: nat)
    requires Tiling(rs) && StopsAt(rs, q, p)
    ensures StartsAt(rs, q, if Inside(rs, q, p) then p - 1 else p)
  {
    forall i | 0 <= i < p - 1 ensures ExceedEndKey(q.start, rs[i].end) {
      EndsByStart(rs, q, p, i);
    }
    forall i | p <= i < |rs| ensures !ExceedEndKey(q.start, rs[i].end) {
      EndsAfterStart(rs, q, p, i);
    }
  }

  /** The regions before `lo` are those that start before `from`. */
  ghost predicate FirstFrom(rs: seq<Region>, from: Region, lo: nat) {
    forall i {:trigger rs[i]} :: 0 <= i < |rs| ==> (Before(rs[i].start, from.start) <==> i < lo)
  }

  lemma FromRegion(rs: seq<Region>, lo: nat)
    requires Tiling(rs) && lo < |rs|
    ensures FirstFrom(rs, rs[lo], lo)
  {
    forall i | 0 <= i < |rs| ensures Before(rs[i].start, rs[lo].start) <==> i < lo {
      Order(rs[lo].start, rs[i].start, rs[lo].start);
      if i < lo {
        assert Apart(rs, i, lo);
      } else if lo < i {
        assert Apart(rs, lo, i);
      }
    }
  }

  lemma FromQuery(rs: seq<Region>, q: Region, p: nat)
    requires Tiling(rs) && StopsAt(rs, q, p) && !Inside(rs, q, p)
    ensures FirstFrom(rs, q, p)
  {
    forall i | 0 <= i < |rs| ensures Before(rs[i].start, q.start) <==> i < p {
      Order(q.start, rs[i].start, q.start);
      if i < p {
        Order(rs[i].start, rs[p - 1].start, q.start);
        assert NonEmpty(rs[p - 1]);
        if i < p - 1 {
          assert Apart(rs, i, p - 1);
          Order(q.start, rs[p - 1].start, q.start);
        }
      }
    }
  }

  /** Descend to the last start at or before the query's, ascend from the region found there or
      from the query's start, stop at its end: the result is the regions hit. */
  method GetOverlapRegions(rs: seq<Region>, q: Region) returns (overlaps: seq<Region>)
    requires Tiling(rs)
    ensures overlaps == Hits(rs, q)
  {
    var result := q;
    var p := |rs|;
    while p > 0 && Before(q.start, rs[p - 1].start)
      invariant 0 <= p <= |rs|
      invariant forall i :: p <= i < |rs| ==> Before(q.start, rs[i].start)
    {
      p := p - 1;
    }
    DescentStop(rs, q, p);
    AscentStart(rs, q, p);
    ghost var lo := if Inside(rs, q, p) then p - 1 else p;
    if p > 0 {
      result := rs[p - 1];
    }
    if p == 0 || ExceedEndKey(q.start, result.end) {
      result := q;
      FromQuery(rs, q, p);
    } else {
      FromRegion(rs, lo);
    }
    overlaps := Ascend(rs, q, result, lo);
  }

  /** Everything before the place where the descent stops starts at or before the query. */
  lemma DescentStop(rs: seq<Region>, q: Region, p: nat)
    requires Tiling(rs) && p <= |rs|
    requires p > 0 ==> !Before(q.start, rs[p - 1].start)
    ensures forall i :: 0 <= i < p ==> !Before(q.start, rs[i].start)
  {
    forall i | 0 <= i < p - 1 ensures !Before(q.start, rs[i].start) {
      assert Apart(rs, i, p - 1);
      Order(q.start, rs[i].start, rs[p - 1].start);
    }
  }

  /** AscendGreaterOrEqual from `from`, up to the query's end. */
  method Ascend(rs: seq<Region>, q: Region, from: Region, ghost lo: nat) returns (overlaps: seq<Region>)
    requires Tiling(rs) && StartsAt(rs, q, lo)
    requires FirstFrom(rs, from, lo)
    ensures overlaps == Hits(rs, q)
  {
    var j := 0;
    while j < |rs| && Before(rs[j].start, from.start)
      invariant 0 <= j <= lo
    {
      j := j + 1;
    }
    var hi: nat;
    overlaps, hi := TakeUntil(rs, j, q.end);
    AscentStop(rs, q, lo, hi);
  }

  /** The regions from `lo` on that start before `end`. */
  method TakeUntil(rs: seq<Region>, lo: nat, end: seq<byte>) returns (overlaps: seq<Region>, hi: nat)
    requires lo <= |rs|
    ensures lo <= hi <= |rs| && overlaps == rs[lo..hi] && (hi < |rs| ==> ExceedEndKey(rs[hi].start, end))
    ensures forall i {:trigger rs[i]} :: lo <= i < hi ==> !ExceedEndKey(rs[i].start, end)
  {
    overlaps, hi := [], lo;
    while hi < |rs| && !ExceedEndKey(rs[hi].start, end)
      invariant lo <= hi <= |rs| && overlaps == rs[lo..hi]
      invariant forall i {:trigger rs[i]} :: lo <= i < hi ==> !ExceedEndKey(rs[i].start, end)
    {
      overlaps := overlaps + [rs[hi]];
      hi := hi + 1;
    }
  }

  /** Starts only get larger, so where the ascent stops there is nothing more to hit. */
  lemma AscentStop(rs: seq<Region>, q: Region, lo: nat, hi: nat)
    requires Tiling(rs) && StartsAt(rs, q, lo) && lo <= hi <= |rs|
    requires forall i {:trigger rs[i]} :: lo <= i < hi ==> !ExceedEndKey(rs[i].start, q.end)
    requires hi < |rs| ==> ExceedEndKey(rs[hi].start, q.end)
    ensures Hits(rs, q) == rs[lo..hi]
  {
    forall i | hi < i < |rs| ensures ExceedEndKey(rs[i].start, q.end) {
      assert Apart(rs, hi, i);
      Order(rs[hi].start, rs[i].start, rs[hi].start);
      EndOrder(rs[hi].start, rs[i].start, q.end);
    }
    HitsSlice(rs, q, lo, hi);
  }

  lemma {:induction false} HitsOverlap(rs: seq<Region>, q: Region)
    requires forall i {:trigger rs[i]} :: 0 <= i < |rs| ==> NonEmpty(rs[i])
    ensures NonEmpty(q) ==> Hits(rs, q) == Overlapping(rs, q)
    ensures !NonEmpty(q) ==> Overlapping(rs, q) == []
  {
    if rs != [] {
      OverlapIff(rs[0], q);
      HitsOverlap(rs[1..], q);
    }
  }

  lemma {:induction false} HitsSome(rs: seq<Region>, q: Region, i: nat)
    requires i < |rs| && Hit(rs[i], q)
    ensures Hits(rs, q) != []
  {
    if i > 0 {
      HitsSome(rs[1..], q, i - 1);
    }
  }

  /** What the store returns is the regions that overlap the query, unless the query is a range
      that holds no key and starts inside a region that starts before the query's end. */
  lemma RightIff(rs: seq<Region>, q: Region)
    requires Tiling(rs)
    ensures Hits(rs, q) == Overlapping(rs, q)
            <==> (NonEmpty(q) || forall i :: 0 <= i < |rs| ==> !(Contains(rs[i], q.start) && Before(rs[i].start, q.end)))
  {
    HitsOverlap(rs, q);
    if !NonEmpty(q) {
      forall i | 0 <= i < |rs| ensures Hit(rs[i], q) <==> Contains(rs[i], q.start) && Before(rs[i].start, q.end) {
        Order(q.start, rs[i].start, q.end);
        Order(rs[i].start, q.end, q.start);
        EndOrder(q.start, rs[i].start, q.end);
      }
      if i :| 0 <= i < |rs| && Hit(rs[i], q) {
        HitsSome(rs, q, i);
      } else {
        HitsNone(rs, q);
      }
    }
  }

  /** One region over all keys, and the range from [5] to [5]: the region is returned although the
      range holds no key. */
  lemma EmptyQueryHits()
    ensures var rs, q := [Region(1, [], [])], Region(2, [5], [5]);
            Tiling(rs) && Hits(rs, q) == rs && Overlapping(rs, q) == []
  {
    var rs, q := [Region(1, [], [])], Region(2, [5], [5]);
    Order([5], [5], [5]);
    HitsOverlap(rs, q);
    assert Common([], [5]) == 0;
    assert Hit(rs[0], q);
    assert rs[1..] == [];
  }
}
