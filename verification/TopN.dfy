/** The bounded heap behind ORDER BY ... LIMIT (kv/coprocessor/topn.go), with the sift-up and
    sift-down of container/heap. Sort keys are integers; comparing them cannot fail. */
module TopN {
  import opened Collections

  datatype SortRow = SortRow(key: seq<int>, data: seq<int>)

  datatype ByItem = ByItem(desc: bool)

  // ---- the order ---------------------------------------------------------------------------

  function CompareDatum(a: int, b: int): int {
    if a < b then -1 else if a > b then 1 else 0
  }

  predicate HasKeys(ord: seq<ByItem>, r: SortRow) {
    |r.key| == |ord|
  }

  /** Compare item by item from position `i` on, reversing those that are descending. */
  function Compare(ord: seq<ByItem>, a: SortRow, b: SortRow, i: nat): int
    requires HasKeys(ord, a) && HasKeys(ord, b) && i <= |ord|
    decreases |ord| - i
  {
    if i == |ord| then 0
    else
      var c := CompareDatum(a.key[i], b.key[i]);
      var ret := if ord[i].desc then -c else c;
      if ret != 0 then ret else Compare(ord, a, b, i + 1)
  }

  /** `a` comes no later than `b`. */
  predicate Le(ord: seq<ByItem>, a: SortRow, b: SortRow)
    requires HasKeys(ord, a) && HasKeys(ord, b)
  {
    Compare(ord, a, b, 0) <= 0
  }

  /** The keys of `a` and `b` first differ at position `k`. */
  ghost predicate FirstDiffer(a: SortRow, b: SortRow, k: nat) {
    && k < |a.key| && k < |b.key| && a.key[k] != b.key[k]
    && forall i :: 0 <= i < k ==> a.key[i] == b.key[i]
  }

  /** At position `k`, `a` has the smaller key if the item is ascending, the larger if it is descending. */
  predicate EarlierAt(ord: seq<ByItem>, a: SortRow, b: SortRow, k: nat)
    requires k < |ord| && k < |a.key| && k < |b.key|
  {
    if ord[k].desc then a.key[k] > b.key[k] else a.key[k] < b.key[k]
  }

  lemma {:induction false} CompareDecides(ord: seq<ByItem>, a: SortRow, b: SortRow, i: nat)
    requires HasKeys(ord, a) && HasKeys(ord, b) && i <= |ord| && a.key[..i] == b.key[..i]
    ensures Compare(ord, a, b, i) <= 0
            <==> (a.key == b.key || exists k: nat :: FirstDiffer(a, b, k) && EarlierAt(ord, a, b, k))
    decreases |ord| - i
  {
    if i == |ord| {
      assert a.key == a.key[..i] && b.key == b.key[..i];
    } else if a.key[i] == b.key[i] {
      assert a.key[..i + 1] == a.key[..i] + [a.key[i]] && b.key[..i + 1] == b.key[..i] + [b.key[i]];
      CompareDecides(ord, a, b, i + 1);
    } else {
      forall j | 0 <= j < i ensures a.key[j] == b.key[j] {
        assert a.key[j] == a.key[..i][j] && b.key[j] == b.key[..i][j];
      }
      assert FirstDiffer(a, b, i);
      assert forall k: nat :: FirstDiffer(a, b, k) ==> k == i;
    }
  }

  /** What the order is: `a` comes no later than `b` if and only if all keys are equal, or where they
      first differ `a` has the smaller one for an ascending item and the larger for a descending. */
  lemma LeIff(ord: seq<ByItem>, a: SortRow, b: SortRow)
    requires HasKeys(ord, a) && HasKeys(ord, b)
    ensures Le(ord, a, b) <==> (a.key == b.key || exists k: nat :: FirstDiffer(a, b, k) && EarlierAt(ord, a, b, k))
  {
    CompareDecides(ord, a, b, 0);
  }

  lemma {:induction false} CompareReversed(ord: seq<ByItem>, a: SortRow, b: SortRow, i: nat)
    requires HasKeys(ord, a) && HasKeys(ord, b) && i <= |ord|
    ensures Compare(ord, a, b, i) == -Compare(ord, b, a, i)
    decreases |ord| - i
  {
    if i < |ord| {
      CompareReversed(ord, a, b, i + 1);
    }
  }

  lemma {:induction false} CompareChains(ord: seq<ByItem>, a: SortRow, b: SortRow, c: SortRow, i: nat)
    requires HasKeys(ord, a) && HasKeys(ord, b) && HasKeys(ord, c) && i <= |ord|
    requires Compare(ord, a, b, i) <= 0 && Compare(ord, b, c, i) <= 0
    ensures Compare(ord, a, c, i) <= 0
    decreases |ord| - i
  {
    if i < |ord| && a.key[i] == b.key[i] && b.key[i] == c.key[i] {
      CompareChains(ord, a, b, c, i + 1);
    }
  }

  /** The order is a total preorder. */
  lemma TotalPreorder(ord: seq<ByItem>, a: SortRow, b: SortRow, c: SortRow)
    requires HasKeys(ord, a) && HasKeys(ord, b) && HasKeys(ord, c)
    ensures Le(ord, a, a) && (Le(ord, a, b) || Le(ord, b, a))
    ensures Le(ord, a, b) && Le(ord, b, c) ==> Le(ord, a, c)
  {
    CompareReversed(ord, a, b, 0);
    CompareReversed(ord, a, a, 0);
    if Le(ord, a, b) && Le(ord, b, c) {
      CompareChains(ord, a, b, c, 0);
    }
  }

  // ---- heaps -------------------------------------------------------------------------------

  predicate AllKeys(ord: seq<ByItem>, rows: seq<SortRow>) {
    forall i :: 0 <= i < |rows| ==> HasKeys(ord, rows[i])
  }

  function Parent(k: nat): nat
    requires k > 0
  {
    (k - 1) / 2
  }

  /** Row `k` is no later than its parent. */
  predicate Below(ord: seq<ByItem>, rows: seq<SortRow>, k: nat)
    requires AllKeys(ord, rows) && 0 < k < |rows|
  {
    Le(ord, rows[k], rows[Parent(k)])
  }

  /** The first `n` rows form a heap with the latest row at the root. */
  ghost predicate IsHeap(ord: seq<ByItem>, rows: seq<SortRow>, n: nat)
    requires AllKeys(ord, rows) && n <= |rows|
  {
    forall k {:trigger Below(ord, rows, k)} :: 0 < k < n ==> Below(ord, rows, k)
  }

  /** Children of `j` are no later than the parent of `j`. */
  ghost predicate Bridged(ord: seq<ByItem>, rows: seq<SortRow>, n: nat, j: nat)
    requires AllKeys(ord, rows) && n <= |rows| && j < n
  {
    j > 0 ==> forall k {:trigger Parent(k)} :: 0 < k < n && Parent(k) == j ==> Le(ord, rows[k], rows[Parent(j)])
  }

  /** A heap but for row `j` being possibly later than its parent. */
  ghost predicate HeapButUp(ord: seq<ByItem>, rows: seq<SortRow>, n: nat, j: nat)
    requires AllKeys(ord, rows) && n <= |rows| && j < n
  {
    && (forall k {:trigger Below(ord, rows, k)} :: 0 < k < n && k != j ==> Below(ord, rows, k))
    && Bridged(ord, rows, n, j)
  }

  /** A heap but for row `i` being possibly earlier than its children. */
  ghost predicate HeapButDown(ord: seq<ByItem>, rows: seq<SortRow>, n: nat, i: nat)
    requires AllKeys(ord, rows) && n <= |rows| && i < n
  {
    && (forall k {:trigger Below(ord, rows, k)} :: 0 < k < n && Parent(k) != i ==> Below(ord, rows, k))
    && Bridged(ord, rows, n, i)
  }

  /** The root of a heap is a maximum. */
  lemma {:induction false} RootIsLatest(ord: seq<ByItem>, rows: seq<SortRow>, n: nat, k: nat)
    requires AllKeys(ord, rows) && n <= |rows| && IsHeap(ord, rows, n) && k < n
    ensures Le(ord, rows[k], rows[0])
    decreases k
  {
    if k == 0 {
      TotalPreorder(ord, rows[0], rows[0], rows[0]);
    } else {
      assert Below(ord, rows, k);
      RootIsLatest(ord, rows, n, Parent(k));
      TotalPreorder(ord, rows[k], rows[Parent(k)], rows[0]);
    }
  }

  // ---- the top N, by multisets -------------------------------------------------------------

  /** `kept` is a selection of min(n, seen) of the rows seen, and no row left out comes strictly
      before one that was kept. */
  ghost predicate IsTopN(ord: seq<ByItem>, seen: multiset<SortRow>, kept: multiset<SortRow>, n: nat) {
    && (forall r :: r in seen ==> HasKeys(ord, r))
    && kept <= seen
    && |kept| == (if |seen| < n then |seen| else n)
    && forall k, d :: k in kept && d in seen - kept && HasKeys(ord, k) && HasKeys(ord, d) ==> Le(ord, k, d)
  }

  lemma TopNGrows(ord: seq<ByItem>, seen: multiset<SortRow>, kept: multiset<SortRow>, n: nat, row: SortRow)
    requires IsTopN(ord, seen, kept, n) && HasKeys(ord, row) && |kept| < n
    ensures IsTopN(ord, seen + multiset{row}, kept + multiset{row}, n)
  {
    assert |seen - kept| == |seen| - |kept|;
    assert |seen - kept| == 0;
    assert (seen + multiset{row}) - (kept + multiset{row}) == seen - kept;
  }

  lemma TopNReplaces(ord: seq<ByItem>, seen: multiset<SortRow>, kept: multiset<SortRow>, n: nat, row: SortRow, root: SortRow)
    requires IsTopN(ord, seen, kept, n) && HasKeys(ord, row) && |kept| == n
    requires root in kept && (forall k :: k in kept && HasKeys(ord, k) ==> HasKeys(ord, root) && Le(ord, k, root))
    requires HasKeys(ord, root) && !Le(ord, root, row)
    ensures IsTopN(ord, seen + multiset{row}, kept - multiset{root} + multiset{row}, n)
  {
    var seen', kept' := seen + multiset{row}, kept - multiset{root} + multiset{row};
    forall k, d | k in kept' && d in seen' - kept' && HasKeys(ord, k) && HasKeys(ord, d)
      ensures Le(ord, k, d)
    {
      TotalPreorder(ord, row, root, d);
      TotalPreorder(ord, root, row, root);
      assert k in kept || k == row;
      assert d in seen - kept || d == root;
    }
  }

  lemma TopNKeeps(ord: seq<ByItem>, seen: multiset<SortRow>, kept: multiset<SortRow>, n: nat, row: SortRow)
    requires IsTopN(ord, seen, kept, n) && HasKeys(ord, row) && |kept| == n
    requires forall k :: k in kept && HasKeys(ord, k) ==> Le(ord, k, row)
    ensures IsTopN(ord, seen + multiset{row}, kept, n)
  {
    forall k, d | k in kept && d in seen + multiset{row} - kept && HasKeys(ord, k) && HasKeys(ord, d)
      ensures Le(ord, k, d)
    {
      assert d in seen - kept || d == row;
    }
  }

  // ---- the heap object ---------------------------------------------------------------------

  class TopNHeap {
    const ord: seq<ByItem>
    const totalCount: nat
    var rows: seq<SortRow>
    var heapSize: nat

    ghost predicate Valid()
      reads this
    {
      AllKeys(ord, rows) && |rows| == heapSize <= totalCount && IsHeap(ord, rows, heapSize)
    }

    constructor (ord: seq<ByItem>, totalCount: nat)
      ensures Valid() && this.ord == ord && this.totalCount == totalCount && rows == []
    {
      this.ord, this.totalCount := ord, totalCount;
      rows, heapSize := [], 0;
    }

    /** The comparison loop: row `i` comes strictly after row `j`. */
    method Less(i: nat, j: nat) returns (r: bool)
      requires AllKeys(ord, rows) && i < |rows| && j < |rows|
      ensures r <==> !Le(ord, rows[i], rows[j])
    {
      var index := 0;
      while index < |ord|
        invariant 0 <= index <= |ord|
        invariant Compare(ord, rows[i], rows[j], 0) == Compare(ord, rows[i], rows[j], index)
      {
        var ret := CompareDatum(rows[i].key[index], rows[j].key[index]);
        if ord[index].desc {
          ret := -ret;
        }
        if ret > 0 {
          return true;
        } else if ret < 0 {
          return false;
        }
        index := index + 1;
      }
      return false;
    }

    /** Sift row `start` up among the first `n`. */
    method Up(start: nat, n: nat)
      requires AllKeys(ord, rows) && start < n <= |rows| && HeapButUp(ord, rows, n, start)
      modifies this`rows
      ensures AllKeys(ord, rows) && |rows| == |old(rows)| && IsHeap(ord, rows, n)
      ensures multiset(rows) == multiset(old(rows)) && rows[n..] == old(rows)[n..]
    {
      var j: nat := start;
      while j > 0
        invariant AllKeys(ord, rows) && |rows| == |old(rows)| && j < n
        invariant HeapButUp(ord, rows, n, j)
        invariant multiset(rows) == multiset(old(rows)) && rows[n..] == old(rows)[n..]
        decreases j
      {
        var i := Parent(j);
        var less := Less(j, i);
        if !less {
          assert Below(ord, rows, j);
          return;
        }
        UpStep(ord, rows, n, j);
        rows := Swap(rows, i, j);
        j := i;
      }
    }

    /** The later of the children of row `i`. */
    method Child(i: nat, n: nat) returns (j: nat)
      requires AllKeys(ord, rows) && n <= |rows| && 2 * i + 1 < n
      ensures i < j < n && LatestChild(ord, rows, n, i, j)
    {
      var j1 := 2 * i + 1;
      j := j1;
      var j2 := j1 + 1;
      if j2 < n {
        var right := Less(j2, j1);
        if right {
          j := j2;
        }
      }
      DownChild(ord, rows, n, i, j);
    }

    /** Sift row `i` down among the first `n`. */
    method Down(start: nat, n: nat)
      requires AllKeys(ord, rows) && start < n <= |rows| && HeapButDown(ord, rows, n, start)
      modifies this`rows
      ensures AllKeys(ord, rows) && |rows| == |old(rows)| && IsHeap(ord, rows, n)
      ensures multiset(rows) == multiset(old(rows)) && rows[n..] == old(rows)[n..]
    {
      var i: nat := start;
      while true
        invariant AllKeys(ord, rows) && |rows| == |old(rows)| && i < n
        invariant HeapButDown(ord, rows, n, i)
        invariant multiset(rows) == multiset(old(rows)) && rows[n..] == old(rows)[n..]
        decreases n - i
      {
        var j1 := 2 * i + 1;
        if j1 >= n {
          return;
        }
        var j := Child(i, n);
        var less := Less(j, i);
        if !less {
          DownDone(ord, rows, n, i, j);
          return;
        }
        DownStep(ord, rows, n, i, j);
        rows := Swap(rows, i, j);
        i := j;
      }
    }

    /** heap.Push. */
    method Push(row: SortRow)
      requires Valid() && heapSize < totalCount && HasKeys(ord, row)
      modifies this
      ensures Valid() && multiset(rows) == multiset(old(rows)) + multiset{row}
    {
      ghost var before := rows;
      rows := rows + [row];
      heapSize := heapSize + 1;
      PushOk(ord, before, row);
      Up(heapSize - 1, heapSize);
    }

    /** Offer a row. It is taken if there is room, or if it comes strictly before the latest row
        kept, which it then replaces. Either way the heap holds the top N of all rows seen. */
    method TryToAddRow(row: SortRow, ghost seen: multiset<SortRow>) returns (success: bool)
      requires Valid() && HasKeys(ord, row) && IsTopN(ord, seen, multiset(rows), totalCount)
      modifies this
      ensures Valid()
      ensures IsTopN(ord, seen + multiset{row}, multiset(rows), totalCount)
      ensures success <==> |old(rows)| < totalCount || (totalCount > 0 && !Le(ord, old(rows)[0], row))
      ensures !success ==> rows == old(rows)
    {
      if heapSize == totalCount {
        success := Challenge(row, seen);
      } else {
        Push(row);
        TopNGrows(ord, seen, multiset(old(rows)), totalCount, row);
        success := true;
      }
    }

    /** A row offered to a full heap. */
    method Challenge(row: SortRow, ghost seen: multiset<SortRow>) returns (success: bool)
      requires Valid() && heapSize == totalCount && HasKeys(ord, row) && IsTopN(ord, seen, multiset(rows), totalCount)
      modifies this`rows
      ensures Valid()
      ensures IsTopN(ord, seen + multiset{row}, multiset(rows), totalCount)
      ensures success <==> totalCount > 0 && !Le(ord, old(rows)[0], row)
      ensures !success ==> rows == old(rows)
    {
      ghost var before := rows;
      rows := rows + [row];
      assert rows[..heapSize] == before;
      var less := Less(0, heapSize);
      if less {
        TotalPreorder(ord, row, row, row);
        RootReplaced(ord, seen, before, totalCount, row);
        HeapLonger(ord, before, row);
        ReplaceRoot(row);
        return true;
      }
      rows := rows[..heapSize];
      RootKept(ord, seen, before, totalCount, row);
      return false;
    }

    /** The row just appended takes the place of the root, is sifted down, and the old root goes.
        heap.Fix at the root comes down to sifting down. */
    method ReplaceRoot(row: SortRow)
      requires AllKeys(ord, rows) && |rows| == heapSize + 1 && 0 < heapSize <= totalCount && rows[heapSize] == row
      requires IsHeap(ord, rows, heapSize)
      modifies this`rows
      ensures Valid()
      ensures multiset(rows) == multiset(old(rows)[..heapSize]) - multiset{old(rows)[0]} + multiset{row}
    {
      ghost var before := rows;
      rows := Swap(rows, 0, heapSize);
      SwapRootOk(ord, before, heapSize);
      ghost var swapped := rows;
      Down(0, heapSize);
      assert rows[heapSize..] == [before[0]] by {
        assert swapped[heapSize..] == [before[0]];
      }
      assert before == before[..heapSize] + [row];
      assert rows == rows[..heapSize] + rows[heapSize..];
      ghost var full := rows;
      rows := rows[..heapSize];
      HeapPrefix(ord, full, heapSize);
      assert multiset(full) == multiset(before);
      assert multiset(full) == multiset(rows) + multiset{before[0]};
      assert multiset(before) == multiset(before[..heapSize]) + multiset{row};
      assert before[0] in before[..heapSize] by {
        assert before[..heapSize][0] == before[0];
      }
      Exchanged(multiset(rows), multiset(before[..heapSize]), before[0], row);
    }
  }

  // ---- steps of the heap operations --------------------------------------------------------

  lemma Exchanged(a: multiset<SortRow>, b: multiset<SortRow>, x: SortRow, y: SortRow)
    requires a + multiset{x} == b + multiset{y} && x in b
    ensures a == b - multiset{x} + multiset{y}
  {
    assert a == a + multiset{x} - multiset{x};
  }

  lemma HeapPrefix(ord: seq<ByItem>, rows: seq<SortRow>, n: nat)
    requires AllKeys(ord, rows) && n <= |rows| && IsHeap(ord, rows, n)
    ensures IsHeap(ord, rows[..n], n)
  {
    forall k | 0 < k < n ensures Below(ord, rows[..n], k) {
      assert Below(ord, rows, k);
    }
  }

  lemma HeapLonger(ord: seq<ByItem>, rows: seq<SortRow>, row: SortRow)
    requires AllKeys(ord, rows) && HasKeys(ord, row) && IsHeap(ord, rows, |rows|)
    ensures IsHeap(ord, rows + [row], |rows|)
  {
    forall k | 0 < k < |rows| ensures Below(ord, rows + [row], k) {
      assert Below(ord, rows, k);
    }
  }

  lemma PushOk(ord: seq<ByItem>, rows: seq<SortRow>, row: SortRow)
    requires AllKeys(ord, rows) && HasKeys(ord, row) && IsHeap(ord, rows, |rows|)
    ensures HeapButUp(ord, rows + [row], |rows| + 1, |rows|)
  {
    var r := rows + [row];
    forall k | 0 < k < |rows| ensures Below(ord, r, k) {
      assert Below(ord, rows, k);
    }
  }

  lemma SwapRootOk(ord: seq<ByItem>, rows: seq<SortRow>, n: nat)
    requires AllKeys(ord, rows) && 0 < n < |rows| && IsHeap(ord, rows, n)
    ensures HeapButDown(ord, Swap(rows, 0, n), n, 0)
  {
    var r := Swap(rows, 0, n);
    forall k | 0 < k < n && Parent(k) != 0 ensures Below(ord, r, k) {
      assert Below(ord, rows, k);
    }
  }

  lemma UpStep(ord: seq<ByItem>, rows: seq<SortRow>, n: nat, j: nat)
    requires AllKeys(ord, rows) && 0 < j < n <= |rows| && HeapButUp(ord, rows, n, j)
    requires !Le(ord, rows[j], rows[Parent(j)])
    ensures HeapButUp(ord, Swap(rows, Parent(j), j), n, Parent(j))
  {
    var i := Parent(j);
    var r := Swap(rows, i, j);
    TotalPreorder(ord, rows[i], rows[j], rows[i]);
    forall k | 0 < k < n && k != i ensures Below(ord, r, k) {
      if k != j {
        assert Below(ord, rows, k);
        TotalPreorder(ord, rows[k], rows[i], rows[j]);
        assert Parent(k) == j ==> Le(ord, rows[k], rows[i]);
      }
    }
    if i > 0 {
      assert Below(ord, rows, i);
      forall k | 0 < k < n && Parent(k) == i ensures Le(ord, r[k], r[Parent(i)]) {
        if k != j {
          assert Below(ord, rows, k);
          TotalPreorder(ord, rows[k], rows[i], rows[Parent(i)]);
        }
      }
    }
  }

  /** `j` is a latest child of `i`. */
  ghost predicate LatestChild(ord: seq<ByItem>, rows: seq<SortRow>, n: nat, i: nat, j: nat)
    requires AllKeys(ord, rows) && n <= |rows|
  {
    && 0 < j < n && Parent(j) == i
    && forall k {:trigger Parent(k)} :: 0 < k < n && Parent(k) == i ==> Le(ord, rows[k], rows[j])
  }

  lemma DownChild(ord: seq<ByItem>, rows: seq<SortRow>, n: nat, i: nat, j: nat)
    requires AllKeys(ord, rows) && n <= |rows| && 2 * i + 1 < n
    requires j == (if 2 * i + 2 < n && !Le(ord, rows[2 * i + 2], rows[2 * i + 1]) then 2 * i + 2 else 2 * i + 1)
    ensures LatestChild(ord, rows, n, i, j)
  {
    forall k | 0 < k < n && Parent(k) == i ensures Le(ord, rows[k], rows[j]) {
      assert k == 2 * i + 1 || k == 2 * i + 2;
      TotalPreorder(ord, rows[k], rows[j], rows[k]);
    }
  }

  lemma DownDone(ord: seq<ByItem>, rows: seq<SortRow>, n: nat, i: nat, j: nat)
    requires AllKeys(ord, rows) && i < n <= |rows| && HeapButDown(ord, rows, n, i)
    requires LatestChild(ord, rows, n, i, j) && Le(ord, rows[j], rows[i])
    ensures IsHeap(ord, rows, n)
  {
    forall k | 0 < k < n ensures Below(ord, rows, k) {
      if Parent(k) == i {
        TotalPreorder(ord, rows[k], rows[j], rows[i]);
      }
    }
  }

  lemma DownStep(ord: seq<ByItem>, rows: seq<SortRow>, n: nat, i: nat, j: nat)
    requires AllKeys(ord, rows) && i < n <= |rows| && HeapButDown(ord, rows, n, i)
    requires LatestChild(ord, rows, n, i, j) && !Le(ord, rows[j], rows[i])
    ensures HeapButDown(ord, Swap(rows, i, j), n, j)
  {
    var r := Swap(rows, i, j);
    TotalPreorder(ord, rows[i], rows[j], rows[i]);
    forall k | 0 < k < n && Parent(k) != j ensures Below(ord, r, k) {
      if Parent(k) == i {
        assert Le(ord, rows[k], rows[j]);
      } else if k != i {
        assert Below(ord, rows, k);
      } else {
        assert Parent(j) == i;
      }
    }
    forall k | 0 < k < n && Parent(k) == j ensures Le(ord, r[k], r[Parent(j)]) {
      assert Below(ord, rows, k);
    }
  }

  lemma RootReplaced(ord: seq<ByItem>, seen: multiset<SortRow>, rows: seq<SortRow>, n: nat, row: SortRow)
    requires AllKeys(ord, rows) && IsHeap(ord, rows, |rows|) && |rows| == n > 0
    requires IsTopN(ord, seen, multiset(rows), n) && HasKeys(ord, row) && !Le(ord, rows[0], row)
    ensures IsTopN(ord, seen + multiset{row}, multiset(rows) - multiset{rows[0]} + multiset{row}, n)
  {
    forall k | k in multiset(rows) ensures HasKeys(ord, k) && Le(ord, k, rows[0]) {
      var i :| 0 <= i < |rows| && rows[i] == k;
      RootIsLatest(ord, rows, n, i);
    }
    TopNReplaces(ord, seen, multiset(rows), n, row, rows[0]);
  }

  lemma RootKept(ord: seq<ByItem>, seen: multiset<SortRow>, rows: seq<SortRow>, n: nat, row: SortRow)
    requires AllKeys(ord, rows) && IsHeap(ord, rows, |rows|) && |rows| == n
    requires IsTopN(ord, seen, multiset(rows), n) && HasKeys(ord, row) && (n > 0 ==> Le(ord, rows[0], row))
    ensures IsTopN(ord, seen + multiset{row}, multiset(rows), n)
  {
    forall k | k in multiset(rows) ensures HasKeys(ord, k) && Le(ord, k, row) {
      var i :| 0 <= i < |rows| && rows[i] == k;
      RootIsLatest(ord, rows, n, i);
      TotalPreorder(ord, k, rows[0], row);
    }
    TopNKeeps(ord, seen, multiset(rows), n, row);
  }

  lemma NextPrefix(s: seq<SortRow>, i: nat)
    requires i < |s|
    ensures multiset(s[..i + 1]) == multiset(s[..i]) + multiset{s[i]}
  {
    assert s[..i + 1] == s[..i] + [s[i]];
  }

  /** Rows offered one after the other to a new heap: it ends up with the top N of them. */
  method OfferAll(ord: seq<ByItem>, n: nat, offered: seq<SortRow>) returns (heap: TopNHeap)
    requires AllKeys(ord, offered)
    ensures fresh(heap) && heap.Valid() && heap.ord == ord && heap.totalCount == n
    ensures IsTopN(ord, multiset(offered), multiset(heap.rows), n)
  {
    heap := new TopNHeap(ord, n);
    var i := 0;
    assert offered[..0] == [];
    while i < |offered|
      invariant 0 <= i <= |offered| && fresh(heap) && heap.Valid() && heap.ord == ord && heap.totalCount == n
      invariant IsTopN(ord, multiset(offered[..i]), multiset(heap.rows), n)
    {
      var _ := heap.TryToAddRow(offered[i], multiset(offered[..i]));
      NextPrefix(offered, i);
      i := i + 1;
    }
    assert offered[..i] == offered;
  }

  // ---- sort and take -----------------------------------------------------------------------

  predicate Sorted(ord: seq<ByItem>, s: seq<SortRow>)
    requires AllKeys(ord, s)
  {
    forall i, j :: 0 <= i <= j < |s| ==> Le(ord, s[i], s[j])
  }

  /** How many rows come strictly before `v`. */
  function CountBefore(ord: seq<ByItem>, s: seq<SortRow>, v: SortRow): nat
    requires AllKeys(ord, s) && HasKeys(ord, v)
  {
    if s == [] then 0
    else CountBefore(ord, s[..|s| - 1], v) + if Le(ord, v, s[|s| - 1]) then 0 else 1
  }

  lemma {:induction false} CountConcat(ord: seq<ByItem>, a: seq<SortRow>, b: seq<SortRow>, v: SortRow)
    requires AllKeys(ord, a) && AllKeys(ord, b) && HasKeys(ord, v)
    ensures CountBefore(ord, a + b, v) == CountBefore(ord, a, v) + CountBefore(ord, b, v)
    decreases |b|
  {
    if b == [] {
      assert a + b == a;
    } else {
      var front := b[..|b| - 1];
      CountConcat(ord, a, front, v);
      assert (a + b)[..|a + b| - 1] == a + front;
    }
  }

  lemma CountWithout(ord: seq<ByItem>, b: seq<SortRow>, j: nat, v: SortRow)
    requires AllKeys(ord, b) && HasKeys(ord, v) && j < |b|
    ensures var rest := b[..j] + b[j + 1..];
            && multiset(rest) == multiset(b) - multiset{b[j]}
            && CountBefore(ord, b, v) == CountBefore(ord, rest, v) + CountBefore(ord, [b[j]], v)
  {
    var l, r := b[..j], b[j + 1..];
    assert b == l + ([b[j]] + r);
    CountConcat(ord, l, r, v);
    CountConcat(ord, l, [b[j]] + r, v);
    CountConcat(ord, [b[j]], r, v);
  }

  /** The count depends on the rows, not on their order. */
  lemma {:induction false} CountSame(ord: seq<ByItem>, a: seq<SortRow>, b: seq<SortRow>, v: SortRow)
    requires AllKeys(ord, a) && AllKeys(ord, b) && HasKeys(ord, v) && multiset(a) == multiset(b)
    ensures CountBefore(ord, a, v) == CountBefore(ord, b, v)
    decreases |a|
  {
    assert |multiset(a)| == |a| && |multiset(b)| == |b|;
    if a != [] {
      var i := |a| - 1;
      assert a[i] in multiset(b);
      var j :| 0 <= j < |b| && b[j] == a[i];
      CountWithout(ord, a, i, v);
      CountWithout(ord, b, j, v);
      CountSame(ord, a[..i] + a[i + 1..], b[..j] + b[j + 1..], v);
    }
  }

  /** In a sorted list, no more rows come before `v` than there are in front of the first that
      does not. */
  lemma {:induction false} CountAtMost(ord: seq<ByItem>, s: seq<SortRow>, i: nat, v: SortRow)
    requires AllKeys(ord, s) && HasKeys(ord, v) && i <= |s|
    requires forall k :: i <= k < |s| ==> Le(ord, v, s[k])
    ensures CountBefore(ord, s, v) <= i
    decreases |s|
  {
    if |s| > 0 {
      var front := s[..|s| - 1];
      if i == |s| {
        CountAtMost(ord, front, i - 1, v);
      } else {
        CountAtMost(ord, front, i, v);
      }
    }
  }

  lemma {:induction false} CountAtLeast(ord: seq<ByItem>, s: seq<SortRow>, i: nat, v: SortRow)
    requires AllKeys(ord, s) && HasKeys(ord, v) && i <= |s|
    requires forall k :: 0 <= k < i ==> !Le(ord, v, s[k])
    ensures CountBefore(ord, s, v) >= i
    decreases |s|
  {
    if |s| > 0 {
      var front := s[..|s| - 1];
      CountAtLeast(ord, front, if i == |s| then i - 1 else i, v);
    }
  }

  lemma Linearize(m: multiset<SortRow>) returns (d: seq<SortRow>)
    ensures multiset(d) == m
    decreases |m|
  {
    if m == multiset{} {
      d := [];
    } else {
      var x :| x in m;
      var rest := Linearize(m - multiset{x});
      d := rest + [x];
    }
  }

  /** Sort-and-take: sorted, the rows kept are position by position as good as the first rows of
      everything seen, sorted. */
  lemma TopNIsSortAndTake(ord: seq<ByItem>, all: seq<SortRow>, kept: seq<SortRow>, n: nat, i: nat)
    requires AllKeys(ord, all) && AllKeys(ord, kept) && Sorted(ord, all) && Sorted(ord, kept)
    requires IsTopN(ord, multiset(all), multiset(kept), n) && i < |kept|
    ensures |kept| <= |all| && Le(ord, kept[i], all[i]) && Le(ord, all[i], kept[i])
  {
    assert |multiset(all)| == |all| && |multiset(kept)| == |kept|;
    var d := Linearize(multiset(all) - multiset(kept));
    assert multiset(all) == multiset(kept + d);
    assert AllKeys(ord, d) by {
      forall k | 0 <= k < |d| ensures HasKeys(ord, d[k]) {
        assert d[k] in multiset(d);
      }
    }
    if !Le(ord, all[i], kept[i]) {
      KeptTooGood(ord, all, kept, d, i);
    }
    if !Le(ord, kept[i], all[i]) {
      DroppedTooGood(ord, all, kept, d, n, i);
    }
  }

  lemma KeptTooGood(ord: seq<ByItem>, all: seq<SortRow>, kept: seq<SortRow>, d: seq<SortRow>, i: nat)
    requires AllKeys(ord, all) && AllKeys(ord, kept) && AllKeys(ord, d) && Sorted(ord, all) && Sorted(ord, kept)
    requires multiset(all) == multiset(kept + d) && i < |kept| <= |all|
    ensures Le(ord, all[i], kept[i])
  {
    var v := all[i];
    if !Le(ord, v, kept[i]) {
      forall k | 0 <= k < i + 1 ensures !Le(ord, v, kept[k]) {
        TotalPreorder(ord, v, kept[k], kept[i]);
      }
      CountAtLeast(ord, kept, i + 1, v);
      CountAtMost(ord, all, i, v);
      CountSame(ord, all, kept + d, v);
      CountConcat(ord, kept, d, v);
    }
  }

  lemma DroppedTooGood(ord: seq<ByItem>, all: seq<SortRow>, kept: seq<SortRow>, d: seq<SortRow>, n: nat, i: nat)
    requires AllKeys(ord, all) && AllKeys(ord, kept) && AllKeys(ord, d) && Sorted(ord, all) && Sorted(ord, kept)
    requires multiset(all) == multiset(kept + d) && multiset(d) == multiset(all) - multiset(kept)
    requires IsTopN(ord, multiset(all), multiset(kept), n) && i < |kept| <= |all|
    ensures Le(ord, kept[i], all[i])
  {
    var v := kept[i];
    assert v in multiset(kept);
    forall k | 0 <= k < |d| ensures Le(ord, v, d[k]) {
      assert d[k] in multiset(d);
    }
    CountAtMost(ord, d, 0, v);
    if !Le(ord, v, all[i]) {
      forall k | 0 <= k < i + 1 ensures !Le(ord, v, all[k]) {
        TotalPreorder(ord, v, all[k], all[i]);
      }
      CountAtLeast(ord, all, i + 1, v);
      CountAtMost(ord, kept, i, v);
      CountSame(ord, all, kept + d, v);
      CountConcat(ord, kept, d, v);
    }
  }
}
