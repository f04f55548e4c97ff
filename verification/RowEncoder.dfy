/** The row encoder as the source runs it (kv/coprocessor/rowcodec/encoder.go). */
module RowEncoder {
  import opened Collections
  import opened Bytes
  import opened RowFormat
  import opened RowLayout

  // ---- partition and sort, by what they keep -----------------------------------------------

  function NotNulls(cols: seq<Col>): (r: seq<Col>)
    ensures NotNull(r)
  {
    if cols == [] then []
    else
      var last := cols[|cols| - 1];
      NotNulls(cols[..|cols| - 1]) + if last.value.Null? then [] else [last]
  }

  function Nulls(cols: seq<Col>): (r: seq<Col>)
    ensures forall i :: 0 <= i < |r| ==> r[i].value.Null?
  {
    if cols == [] then []
    else
      var last := cols[|cols| - 1];
      Nulls(cols[..|cols| - 1]) + if last.value.Null? then [last] else []
  }

  lemma {:induction false} PartitionCounts(cols: seq<Col>)
    ensures multiset(cols) == multiset(NotNulls(cols)) + multiset(Nulls(cols))
    ensures |cols| == |NotNulls(cols)| + |Nulls(cols)|
  {
    if cols != [] {
      var front, last := cols[..|cols| - 1], cols[|cols| - 1];
      PartitionCounts(front);
      assert cols == front + [last];
      if last.value.Null? {
        assert NotNulls(cols) == NotNulls(front);
        assert Nulls(cols) == Nulls(front) + [last];
      } else {
        assert NotNulls(cols) == NotNulls(front) + [last];
        assert Nulls(cols) == Nulls(front);
      }
    }
  }

  function Zip(ids: seq<nat>, values: seq<Datum>): (r: seq<Col>)
    requires |ids| == |values|
    ensures |r| == |ids| && forall i :: 0 <= i < |r| ==> r[i] == Col(ids[i], values[i])
  {
    seq(|ids|, i requires 0 <= i < |ids| => Col(ids[i], values[i]))
  }

  function Values(cols: seq<Col>): (r: seq<Datum>)
    ensures |r| == |cols| && forall i :: 0 <= i < |r| ==> r[i] == cols[i].value
  {
    seq(|cols|, i requires 0 <= i < |cols| => cols[i].value)
  }

  predicate Distinct(cols: seq<Col>) {
    forall i, j :: 0 <= i < j < |cols| ==> cols[i].id != cols[j].id
  }

  /** Columns the encoder is meant for: distinct ids that fit uint32, counted in 16 bits. */
  predicate Encodable(cols: seq<Col>) {
    Distinct(cols) && |cols| <= MAX_UINT16 && forall i :: 0 <= i < |cols| ==> cols[i].id < TWO_32
  }

  /** `nn` and `nulls` are the not-null and null columns of `cols`, each by ascending id. */
  ghost predicate Sorts(cols: seq<Col>, nn: seq<Col>, nulls: seq<Col>) {
    && Ascending(nn) && Ascending(nulls)
    && multiset(nn) == multiset(NotNulls(cols)) && multiset(nulls) == multiset(Nulls(cols))
  }

  lemma InMultiset(a: seq<Col>, b: seq<Col>, i: nat) returns (j: nat)
    requires multiset(a) == multiset(b) && i < |a|
    ensures j < |b| && b[j] == a[i]
  {
    assert a[i] in multiset(b);
    j :| 0 <= j < |b| && b[j] == a[i];
  }

  /** Equal contents have equal lengths, and distinct ids stay distinct. */
  lemma SameLength(a: seq<Col>, b: seq<Col>)
    requires multiset(a) == multiset(b)
    ensures |a| == |b|
  {
    assert |multiset(a)| == |a| && |multiset(b)| == |b|;
  }

  lemma OnlyOnce(cols: seq<Col>, c: Col)
    requires Distinct(cols)
    ensures multiset(cols)[c] <= 1
    decreases |cols|
  {
    if cols != [] {
      var front := cols[..|cols| - 1];
      assert cols == front + [cols[|cols| - 1]];
      OnlyOnce(front, c);
      if cols[|cols| - 1] == c {
        assert c !in front;
      }
    }
  }

  lemma DistinctAfter(cols: seq<Col>, s: seq<Col>)
    requires Distinct(cols) && multiset(s) <= multiset(cols)
    ensures Distinct(s)
  {
    forall i, j | 0 <= i < j < |s| ensures s[i].id != s[j].id {
      assert s[i] in multiset(cols) && s[j] in multiset(cols);
      var a :| 0 <= a < |cols| && cols[a] == s[i];
      var b :| 0 <= b < |cols| && cols[b] == s[j];
      if a == b {
        TwiceInMultiset(s, i, j);
        OnlyOnce(cols, s[i]);
      }
    }
  }

  lemma TwiceInMultiset(s: seq<Col>, i: nat, j: nat)
    requires i < j < |s| && s[i] == s[j]
    ensures multiset(s)[s[i]] >= 2
  {
    assert s == s[..j] + [s[j]] + s[j + 1..];
    assert s[i] in s[..j];
  }

  /** Sorted columns of an encodable row form a layout. */
  lemma SortsLayout(cols: seq<Col>, nn: seq<Col>, nulls: seq<Col>)
    requires Encodable(cols) && Sorts(cols, nn, nulls)
    ensures Layout(nn, nulls) && NotNull(nn)
  {
    PartitionCounts(cols);
    SameLength(nn, NotNulls(cols));
    SameLength(nulls, Nulls(cols));
    forall i | 0 <= i < |nn| ensures !nn[i].value.Null? && nn[i].id < TWO_32 {
      var j := InMultiset(nn, NotNulls(cols), i);
      assert nn[i] in multiset(cols);
    }
    forall i | 0 <= i < |nulls| ensures nulls[i].value.Null? && nulls[i].id < TWO_32 {
      var j := InMultiset(nulls, Nulls(cols), i);
      assert nulls[i] in multiset(cols);
    }
    var all := nn + nulls;
    assert multiset(all) == multiset(cols);
    DistinctAfter(cols, all);
    forall i, j | 0 <= i < |nn| && 0 <= j < |nulls| ensures nn[i].id != nulls[j].id {
      assert all[i] == nn[i] && all[|nn| + j] == nulls[j];
    }
  }

  // ---- sort.Sort over ids and values in step -----------------------------------------------

  lemma SwapZip(ids: seq<nat>, values: seq<Datum>, i: nat)
    requires |ids| == |values| && i + 1 < |ids|
    ensures multiset(Zip(Swap(ids, i, i + 1), Swap(values, i, i + 1))) == multiset(Zip(ids, values))
  {
    assert Zip(Swap(ids, i, i + 1), Swap(values, i, i + 1)) == Swap(Zip(ids, values), i, i + 1);
  }

  method SortColumns(ids: seq<nat>, values: seq<Datum>) returns (ids': seq<nat>, values': seq<Datum>)
    requires |ids| == |values|
    ensures |ids'| == |ids| == |values'|
    ensures forall i, j :: 0 <= i <= j < |ids'| ==> ids'[i] <= ids'[j]
    ensures multiset(Zip(ids', values')) == multiset(Zip(ids, values))
  {
    ids', values' := ids, values;
    var i := 0;
    while i < |ids'|
      invariant 0 <= i <= |ids'| == |ids| == |values'|
      invariant forall a, b :: 0 <= a <= b < i ==> ids'[a] <= ids'[b]
      invariant multiset(Zip(ids', values')) == multiset(Zip(ids, values))
    {
      var j := i;
      while j > 0 && ids'[j] < ids'[j - 1]
        invariant 0 <= j <= i < |ids'| == |ids| == |values'|
        invariant forall a, b :: 0 <= a <= b <= i && b != j ==> ids'[a] <= ids'[b]
        invariant multiset(Zip(ids', values')) == multiset(Zip(ids, values))
      {
        SwapZip(ids', values', j - 1);
        ids', values' := Swap(ids', j - 1, j), Swap(values', j - 1, j);
        j := j - 1;
      }
      i := i + 1;
    }
  }

  class Encoder {
    var large: bool
    var numNotNullCols: nat
    var numNullCols: nat
    var colIDs: seq<nat>
    var offsets: seq<nat>
    var colIDs32: seq<nat>
    var offsets32: seq<nat>
    var data: seq<byte>
    var tempColIDs: seq<nat>
    var values: seq<Datum>

    constructor ()
      ensures offsets32 == []
    {
      large, numNotNullCols, numNullCols := false, 0, 0;
      colIDs, offsets, colIDs32, offsets32, data, tempColIDs, values := [], [], [], [], [], [], [];
    }

    /** The columns added so far, with their counts and the width they need. */
    ghost predicate Holds(cols: seq<Col>)
      reads this
    {
      && |tempColIDs| == |values| == |cols|
      && Zip(tempColIDs, values) == cols
      && numNotNullCols == |NotNulls(cols)| && numNullCols == |Nulls(cols)|
      && (large <==> exists i :: 0 <= i < |cols| && cols[i].id > 255)
      && data == []
    }

    method Reset()
      modifies this
      ensures Holds([]) && offsets32 == old(offsets32)
    {
      large := false;
      numNotNullCols := 0;
      numNullCols := 0;
      data := [];
      tempColIDs := [];
      values := [];
    }

    method AddColumn(colID: nat, d: Datum, ghost cols: seq<Col>)
      requires Holds(cols)
      modifies this
      ensures Holds(cols + [Col(colID, d)]) && offsets32 == old(offsets32)
    {
      if colID > 255 {
        large := true;
      }
      if d.Null? {
        numNullCols := numNullCols + 1;
      } else {
        numNotNullCols := numNotNullCols + 1;
      }
      tempColIDs := tempColIDs + [colID];
      values := values + [d];
      ghost var cols' := cols + [Col(colID, d)];
      assert cols'[..|cols|] == cols;
      assert cols'[|cols|].id == colID;
      assert forall i :: 0 <= i < |cols| ==> cols'[i] == cols[i];
    }

    /** Every offset so far is where its column ends, in the width in use. */
    ghost predicate OffsetsSet(nn: seq<Col>, i: nat, ids: seq<nat>, stale: seq<nat>)
      requires NotNull(nn) && i <= |nn|
      reads this
    {
      if large then
        colIDs32 == ids && |offsets32| == |nn| && forall j :: 0 <= j < i ==> offsets32[j] == Offsets(nn)[j] % TWO_32
      else
        colIDs == ids && |offsets| == |nn| && offsets32 == stale && forall j :: 0 <= j < i ==> offsets[j] == Offsets(nn)[j]
    }

    /** The data of the first `i` columns is in, and the row is large if its ids or data call for it. */
    ghost predicate DataIn(nn: seq<Col>, i: nat, wide: bool)
      requires NotNull(nn) && i <= |nn|
      reads this
    {
      && |nn| == numNotNullCols
      && |values| >= |nn| && values[..|nn|] == Values(nn)
      && data == Concat(nn[..i])
      && (large <==> wide || |data| > MAX_UINT16)
    }

    ghost predicate Filled(nn: seq<Col>, i: nat, ids: seq<nat>, wide: bool, stale: seq<nat>)
      reads this
    {
      NotNull(nn) && i <= |nn| && DataIn(nn, i, wide) && OffsetsSet(nn, i, ids, stale)
    }

    /** Copy the one-byte ids to the four-byte list. */
    method WidenIds()
      modifies this`colIDs32
      ensures colIDs32 == colIDs
    {
      var numCols := |colIDs|;
      colIDs32 := Resize(colIDs32, numCols);
      var j := 0;
      while j < numCols
        invariant 0 <= j <= numCols == |colIDs32|
        invariant forall k :: 0 <= k < j ==> colIDs32[k] == colIDs[k]
      {
        colIDs32 := colIDs32[j := colIDs[j]];
        j := j + 1;
      }
    }

    /** Convert a row that has outgrown 16-bit offsets: ids, and the offsets of the columns so far. */
    method Promote(i: nat)
      requires i < |offsets| == numNotNullCols
      modifies this`colIDs32, this`offsets32, this`large
      ensures large && colIDs32 == colIDs && |offsets32| == numNotNullCols
      ensures forall j :: 0 <= j <= i ==> offsets32[j] == offsets[j]
    {
      WidenIds();
      offsets32 := Resize(offsets32, numNotNullCols);
      var j := 0;
      while j <= i
        modifies this`offsets32
        invariant 0 <= j <= i + 1 && |offsets32| == numNotNullCols
        invariant forall k :: 0 <= k < j ==> offsets32[k] == offsets[k]
      {
        offsets32 := offsets32[j := offsets[j]];
        j := j + 1;
      }
      large := true;
    }

    /** Whatever 32-bit offsets the encoder still holds replace the first 16-bit ones. */
    method OverwriteOffsets()
      requires |offsets32| <= |offsets|
      modifies this`offsets
      ensures offsets == Overwrite(old(offsets), Mod(offsets32, 0x1_0000))
    {
      var i := 0;
      while i < |offsets32|
        invariant 0 <= i <= |offsets32| <= |offsets| == |old(offsets)|
        invariant forall k :: 0 <= k < |offsets| ==>
                    offsets[k] == if k < i then offsets32[k] % 0x1_0000 else old(offsets)[k]
      {
        offsets := offsets[i := offsets32[i] % 0x1_0000];
        i := i + 1;
      }
    }

    /** First half of a turn of the data loop: the data, and the promotion it may cause. */
    method AppendData(i: nat, ghost nn: seq<Col>, ghost ids: seq<nat>, ghost wide: bool, ghost stale: seq<nat>)
      requires Filled(nn, i, ids, wide, stale) && i < |nn|
      modifies this`data, this`offsets32, this`colIDs32, this`large
      ensures DataIn(nn, i + 1, wide) && OffsetsSet(nn, i, ids, stale)
    {
      EndStep(nn, i);
      var d := values[i];
      assert d == nn[i].value;
      data := data + EncodeDatum(d);
      if |data| > MAX_UINT16 && !large {
        SmallEnds(nn, i);
        Promote(i);
      }
    }

    /** One turn of the data loop. */
    method AppendColumn(i: nat, ghost nn: seq<Col>, ghost ids: seq<nat>, ghost wide: bool, ghost stale: seq<nat>)
      requires Filled(nn, i, ids, wide, stale) && i < |nn|
      modifies this`data, this`offsets, this`offsets32, this`colIDs32, this`large
      ensures Filled(nn, i + 1, ids, wide, stale)
    {
      AppendData(i, nn, ids, wide, stale);
      assert Offsets(nn)[i] == |data|;
      if large {
        offsets32 := offsets32[i := |data| % TWO_32];
      } else {
        offsets := offsets[i := |data| % 0x1_0000];
      }
    }

    method Fill(ghost nn: seq<Col>, ghost ids: seq<nat>, ghost wide: bool, ghost stale: seq<nat>)
      requires Filled(nn, 0, ids, wide, stale)
      modifies this`data, this`offsets, this`offsets32, this`colIDs32, this`large
      ensures Filled(nn, |nn|, ids, wide, stale)
    {
      var i := 0;
      while i < numNotNullCols
        invariant i <= numNotNullCols == |nn| && Filled(nn, i, ids, wide, stale)
      {
        AppendColumn(i, nn, ids, wide, stale);
        i := i + 1;
      }
    }

    /** What follows the data loop: the last check on the size, the stale offsets, the bytes. */
    method Finish(ghost nn: seq<Col>, ghost nulls: seq<Col>, ghost stale: seq<nat>) returns (r: Outcome<seq<byte>>)
      requires Filled(nn, |nn|, Ids(nn) + Ids(nulls), WideIds(nn, nulls), stale) && numNullCols == |nulls|
      modifies this`offsets, this`colIDs32, this`large
      ensures r == Build(nn, nulls, stale)
      ensures offsets32 == LeftBy(nn, nulls, stale)
    {
      assert nn[..|nn|] == nn;
      if !large {
        assert offsets == Offsets(nn);
        if |data| >= MAX_UINT16 {
          large := true;
          WidenIds();
        } else {
          if |offsets32| > |offsets| {
            return Panic;
          }
          OverwriteOffsets();
        }
      } else {
        assert offsets32 == Mod(Offsets(nn), TWO_32);
      }
      r := Ok(Bytes());
    }

    function Bytes(): seq<byte>
      reads this
    {
      if large then LargeRow(colIDs32, numNotNullCols, numNullCols, offsets32, data)
      else SmallRow(colIDs, numNotNullCols, numNullCols, offsets, data)
    }

    method BuildRow(ghost cols: seq<Col>)
      returns (r: Outcome<seq<byte>>, ghost nn: seq<Col>, ghost nulls: seq<Col>)
      requires Holds(cols) && Encodable(cols)
      modifies this
      ensures Sorts(cols, nn, nulls) && NotNull(nn)
      ensures r == Build(nn, nulls, old(offsets32))
      ensures offsets32 == LeftBy(nn, nulls, old(offsets32))
    {
      ghost var stale := offsets32;
      var ids: seq<nat>;
      ids, values, nn, nulls := SortRow(tempColIDs, values, numNotNullCols, numNullCols, large, cols);
      InitLists(ids, nn);
      Fill(nn, ids, large, stale);
      r := Finish(nn, nulls, stale);
    }

    /** The lists of ids and offsets of the width in use. */
    method InitLists(ids: seq<nat>, ghost nn: seq<Col>)
      requires NotNull(nn) && |nn| == numNotNullCols && values == Values(nn) && data == []
      modifies this`colIDs, this`colIDs32, this`offsets, this`offsets32
      ensures Filled(nn, 0, ids, large, old(offsets32))
    {
      assert nn[..0] == [];
      if large {
        colIDs32 := ids;
        offsets32 := Resize(offsets32, numNotNullCols);
      } else {
        colIDs := ids;
        offsets := Resize(offsets, numNotNullCols);
      }
    }

    /** Encode a row: the bytes Build gives for its columns in order, from any earlier use of the
        encoder. `offsets32` is the only thing carried over from it, and a large row replaces it. */
    method Encode(colIDs: seq<nat>, values: seq<Datum>)
      returns (r: Outcome<seq<byte>>, ghost nn: seq<Col>, ghost nulls: seq<Col>)
      requires |colIDs| == |values| && Encodable(Zip(colIDs, values))
      modifies this
      ensures Sorts(Zip(colIDs, values), nn, nulls) && NotNull(nn)
      ensures r == Build(nn, nulls, old(offsets32))
      ensures offsets32 == LeftBy(nn, nulls, old(offsets32))
    {
      Reset();
      AddColumns(colIDs, values);
      r, nn, nulls := BuildRow(Zip(colIDs, values));
    }

    method AddColumns(colIDs: seq<nat>, values: seq<Datum>)
      requires |colIDs| == |values| && Holds([])
      modifies this
      ensures Holds(Zip(colIDs, values)) && offsets32 == old(offsets32)
    {
      ghost var cols := Zip(colIDs, values);
      for i := 0 to |colIDs|
        invariant Holds(cols[..i]) && offsets32 == old(offsets32)
      {
        AddColumn(colIDs[i], values[i], cols[..i]);
        assert cols[..i] + [Col(colIDs[i], values[i])] == cols[..i + 1];
      }
      assert cols[..|colIDs|] == cols;
    }
  }

  /** A slice resized to `n`, reusing what it holds if it is long enough. */
  function Resize(s: seq<nat>, n: nat): (r: seq<nat>)
    ensures |r| == n
  {
    if |s| >= n then s[..n] else seq(n, i => 0)
  }

  /** Offsets of a row that still fits 16 bits are the same in 32. */
  lemma SmallEnds(nn: seq<Col>, i: nat)
    requires NotNull(nn) && i <= |nn| && End(nn, i) <= MAX_UINT16
    ensures forall j :: 0 <= j < i ==> Offsets(nn)[j] % TWO_32 == Offsets(nn)[j]
  {
    forall j | 0 <= j < i ensures Offsets(nn)[j] % TWO_32 == Offsets(nn)[j] {
      EndsAscend(nn, j + 1, i);
      RemainderSmall(Offsets(nn)[j], TWO_32);
    }
  }

  /** The partition and the sorts: ids and values of the columns in row order. */
  method SortRow(tempColIDs: seq<nat>, values: seq<Datum>, n: nat, numNullCols: nat, large: bool, ghost cols: seq<Col>)
    returns (ids': seq<nat>, values': seq<Datum>, ghost nn: seq<Col>, ghost nulls: seq<Col>)
    requires |tempColIDs| == |values| == |cols| && Encodable(cols)
    requires forall i :: 0 <= i < |cols| ==> cols[i] == Col(tempColIDs[i], values[i])
    requires n == |NotNulls(cols)| && numNullCols == |Nulls(cols)|
    requires large <==> exists i :: 0 <= i < |cols| && cols[i].id > 255
    ensures Sorts(cols, nn, nulls) && NotNull(nn) && |nn| == n && |nulls| == numNullCols
    ensures ids' == Ids(nn) + Ids(nulls) && values' == Values(nn)
    ensures large <==> WideIds(nn, nulls)
  {
    var ids, moved := Separate(tempColIDs, values, numNullCols, large, cols);
    var ids1, values1 := SortColumns(ids[..n], moved[..n]);
    var nullIds := ids[n..];
    if numNullCols > 0 {
      nullIds := SortIds(nullIds);
    }
    nn := Zip(ids1, values1);
    assert Zip(ids[..n], moved[..n]) == NotNulls(cols);
    SortedNotNull(cols, nn);
    nulls := NullCols(nullIds);
    assert NullCols(ids[n..]) == Nulls(cols);
    SortedNull(cols, nulls);
    WideAsHeld(cols, nn, nulls);
    SameLength(nulls, Nulls(cols));
    ids', values' := ids1 + nullIds, values1;
    assert Ids(nn) == ids1 && Ids(nulls) == nullIds && Values(nn) == values1;
  }

  function NullCols(ids: seq<nat>): (r: seq<Col>)
    ensures |r| == |ids| && forall i :: 0 <= i < |r| ==> r[i] == Col(ids[i], Null)
  {
    seq(|ids|, i requires 0 <= i < |ids| => Col(ids[i], Null))
  }

  /** The null columns are sorted by id alone. */
  method SortIds(ids: seq<nat>) returns (r: seq<nat>)
    ensures |r| == |ids| && forall i, j :: 0 <= i <= j < |r| ==> r[i] <= r[j]
    ensures multiset(NullCols(r)) == multiset(NullCols(ids))
  {
    var blank := seq(|ids|, i => Null);
    var values: seq<Datum>;
    r, values := SortColumns(ids, blank);
    assert Zip(ids, blank) == NullCols(ids);
    AllNull(r, values, NullCols(ids));
  }

  lemma AllNull(ids: seq<nat>, values: seq<Datum>, nulls: seq<Col>)
    requires |ids| == |values| && multiset(Zip(ids, values)) == multiset(nulls)
    requires forall i :: 0 <= i < |nulls| ==> nulls[i].value.Null?
    ensures Zip(ids, values) == NullCols(ids)
  {
    forall i | 0 <= i < |ids| ensures Zip(ids, values)[i] == Col(ids[i], Null) {
      var j := InMultiset(Zip(ids, values), nulls, i);
    }
  }

  lemma SortedNotNull(cols: seq<Col>, nn: seq<Col>)
    requires Encodable(cols) && multiset(nn) == multiset(NotNulls(cols))
    requires forall i, j :: 0 <= i <= j < |nn| ==> nn[i].id <= nn[j].id
    ensures Ascending(nn) && NotNull(nn)
  {
    PartitionCounts(cols);
    DistinctAfter(cols, nn);
    forall i | 0 <= i < |nn| ensures !nn[i].value.Null? {
      var j := InMultiset(nn, NotNulls(cols), i);
    }
  }

  lemma SortedNull(cols: seq<Col>, nulls: seq<Col>)
    requires Encodable(cols) && multiset(nulls) == multiset(Nulls(cols))
    requires forall i, j :: 0 <= i <= j < |nulls| ==> nulls[i].id <= nulls[j].id
    ensures Ascending(nulls)
  {
    PartitionCounts(cols);
    DistinctAfter(cols, nulls);
  }

  lemma WideAsHeld(cols: seq<Col>, nn: seq<Col>, nulls: seq<Col>)
    requires Sorts(cols, nn, nulls)
    ensures WideIds(nn, nulls) <==> exists i :: 0 <= i < |cols| && cols[i].id > 255
  {
    PartitionCounts(cols);
    var all := nn + nulls;
    assert multiset(all) == multiset(cols);
    forall k | 0 <= k < |all| && all[k].id > 255
      ensures exists i :: 0 <= i < |cols| && cols[i].id > 255
    {
      var j := InMultiset(all, cols, k);
    }
    forall i | 0 <= i < |nn| ensures all[i] == nn[i] {}
    forall i | 0 <= i < |nulls| ensures all[|nn| + i] == nulls[i] {}
    forall i | 0 <= i < |cols| && cols[i].id > 255 ensures WideIds(nn, nulls) {
      var j := InMultiset(cols, all, i);
      assert if j < |nn| then nn[j].id > 255 else nulls[j - |nn|].id > 255;
    }
  }

  // ---- partition ---------------------------------------------------------------------------

  /** After `i` columns: not-null ids from the front up to `a`, null ids from `k` up to `b`, and
      the values of the not-null ones moved to the front. */
  ghost predicate Separated(cols: seq<Col>, i: nat, ids: seq<nat>, values: seq<Datum>, k: nat, a: nat, b: nat) {
    && i <= |cols| == |ids| == |values|
    && k == |NotNulls(cols)|
    && a == |NotNulls(cols[..i])| && a <= i && a <= k
    && b == k + |Nulls(cols[..i])| && b <= |cols|
    && ids[..a] == Ids(NotNulls(cols[..i]))
    && ids[k..b] == Ids(Nulls(cols[..i]))
    && values[..a] == Values(NotNulls(cols[..i]))
    && forall j :: i <= j < |cols| ==> values[j] == cols[j].value
  }

  lemma SeparatedNull(cols: seq<Col>, i: nat, ids: seq<nat>, values: seq<Datum>, k: nat, a: nat, b: nat)
    requires Separated(cols, i, ids, values, k, a, b) && i < |cols| && cols[i].value.Null?
    ensures b < |cols| && Separated(cols, i + 1, ids[b := cols[i].id], values, k, a, b + 1)
  {
    SeparateStep(cols, i);
    PartitionCounts(cols);
    PutAfter(ids, a, k, b, cols[i].id);
  }

  /** Filling the next place of the stretch from `k` on. */
  lemma PutAfter(ids: seq<nat>, a: nat, k: nat, b: nat, id: nat)
    requires a <= k <= b < |ids|
    ensures var ids' := ids[b := id];
            ids'[..a] == ids[..a] && ids'[k..b + 1] == ids[k..b] + [id]
  {
  }

  lemma SeparatedNotNull(cols: seq<Col>, i: nat, ids: seq<nat>, values: seq<Datum>, k: nat, a: nat, b: nat)
    requires Separated(cols, i, ids, values, k, a, b) && i < |cols| && !cols[i].value.Null?
    ensures a < |cols|
    ensures Separated(cols, i + 1, ids[a := cols[i].id], values[a := cols[i].value], k, a + 1, b)
  {
    SeparateStep(cols, i);
    var ids', values' := ids[a := cols[i].id], values[a := cols[i].value];
    assert ids'[..a + 1] == ids[..a] + [cols[i].id];
    assert ids'[k..b] == ids[k..b];
    assert values'[..a + 1] == values[..a] + [cols[i].value];
  }

  /** The id list is filled, not-null columns from the front and null ones after them; the values
      of not-null columns move to the front of the list they are in. */
  method Separate(tempColIDs: seq<nat>, values: seq<Datum>, numNullCols: nat, large: bool, ghost cols: seq<Col>)
    returns (ids: seq<nat>, values': seq<Datum>)
    requires |tempColIDs| == |values| == |cols| && Encodable(cols)
    requires forall i :: 0 <= i < |cols| ==> cols[i] == Col(tempColIDs[i], values[i])
    requires numNullCols == |Nulls(cols)| && (!large ==> forall i :: 0 <= i < |cols| ==> cols[i].id <= 255)
    ensures ids == Ids(NotNulls(cols)) + Ids(Nulls(cols))
    ensures |values'| == |cols| && |NotNulls(cols)| <= |cols|
    ensures values'[..|NotNulls(cols)|] == Values(NotNulls(cols))
  {
    var numCols := |tempColIDs|;
    ids := seq(numCols, i => 0);
    values' := values;
    PartitionCounts(cols);
    var nullIdx: nat := numCols - numNullCols;
    var notNullIdx: nat := 0;
    ghost var k := nullIdx;
    SeparatedInit(cols, ids, values', k);
    var i: nat := 0;
    while i < numCols
      invariant Separated(cols, i, ids, values', k, notNullIdx, nullIdx)
    {
      var id := Narrow(tempColIDs[i], large);
      ids, values', notNullIdx, nullIdx := Place(id, ids, values', notNullIdx, nullIdx, cols, i, k);
      i := i + 1;
    }
    SeparatedDone(cols, ids, values', k, notNullIdx, nullIdx);
  }

  /** One turn of the separating loop: the id of column `i` goes to its place, and its value too if
      there is one. */
  method Place(id: nat, ids: seq<nat>, values: seq<Datum>, notNullIdx: nat, nullIdx: nat,
               ghost cols: seq<Col>, i: nat, ghost k: nat)
    returns (ids': seq<nat>, values': seq<Datum>, notNullIdx': nat, nullIdx': nat)
    requires Separated(cols, i, ids, values, k, notNullIdx, nullIdx) && i < |cols| && id == cols[i].id
    ensures Separated(cols, i + 1, ids', values', k, notNullIdx', nullIdx')
  {
    if values[i].Null? {
      SeparatedNull(cols, i, ids, values, k, notNullIdx, nullIdx);
      return ids[nullIdx := id], values, notNullIdx, nullIdx + 1;
    } else {
      SeparatedNotNull(cols, i, ids, values, k, notNullIdx, nullIdx);
      return ids[notNullIdx := id], values[notNullIdx := values[i]], notNullIdx + 1, nullIdx;
    }
  }

  /** uint32(colID) or byte(colID). */
  function Narrow(colID: nat, large: bool): (r: nat)
    ensures (large && colID < TWO_32) || (!large && colID < 256) ==> r == colID
  {
    if large then colID % TWO_32 else colID % 256
  }

  lemma SeparatedInit(cols: seq<Col>, ids: seq<nat>, values: seq<Datum>, k: nat)
    requires |cols| == |ids| == |values| && k == |NotNulls(cols)| <= |cols|
    requires forall i :: 0 <= i < |cols| ==> values[i] == cols[i].value
    ensures Separated(cols, 0, ids, values, k, 0, k)
  {
    assert cols[..0] == [];
  }

  lemma SeparatedDone(cols: seq<Col>, ids: seq<nat>, values: seq<Datum>, k: nat, a: nat, b: nat)
    requires Separated(cols, |cols|, ids, values, k, a, b)
    ensures ids == Ids(NotNulls(cols)) + Ids(Nulls(cols))
    ensures |NotNulls(cols)| <= |cols| && values[..|NotNulls(cols)|] == Values(NotNulls(cols))
  {
    assert cols[..|cols|] == cols;
    PartitionCounts(cols);
    assert ids == ids[..k] + ids[k..b];
  }

  lemma SeparateStep(cols: seq<Col>, i: nat)
    requires i < |cols|
    ensures NotNulls(cols[..i + 1]) == NotNulls(cols[..i]) + if cols[i].value.Null? then [] else [cols[i]]
    ensures Nulls(cols[..i + 1]) == Nulls(cols[..i]) + if cols[i].value.Null? then [cols[i]] else []
    ensures |NotNulls(cols[..i + 1])| <= |NotNulls(cols)| && |Nulls(cols[..i + 1])| <= |Nulls(cols)|
  {
    assert cols[..i + 1][..i] == cols[..i];
    CountsRise(cols, i + 1);
  }

  lemma {:induction false} CountsRise(cols: seq<Col>, i: nat)
    requires i <= |cols|
    ensures |NotNulls(cols[..i])| <= |NotNulls(cols)| && |Nulls(cols[..i])| <= |Nulls(cols)|
    decreases |cols|
  {
    if i == |cols| {
      assert cols[..i] == cols;
    } else {
      var front := cols[..|cols| - 1];
      assert front[..i] == cols[..i];
      CountsRise(front, i);
    }
  }
}
