/** An encoder used for one row after another: the 32-bit offsets of the last large row stay in it
    and end up in small rows (kv/coprocessor/rowcodec/encoder.go). When values then come back. */
module RowReuse {
  import opened Bytes
  import opened RowFormat
  import opened RowLayout
  import opened RowRoundTrip
  import opened RowEncoder

  /** A row is written, and all its not-null columns read back as stored. */
  ghost predicate Survives(nn: seq<Col>, nulls: seq<Col>, stale: seq<nat>)
    requires NotNull(nn)
  {
    Build(nn, nulls, stale).Ok? && ValuesSurvive(nn, Build(nn, nulls, stale).value)
  }

  /** Every column is written between its offsets. */
  ghost predicate LaidOut(nn: seq<Col>, offsets: seq<nat>, data: seq<byte>)
    requires NotNull(nn) && |offsets| == |nn|
  {
    forall k {:trigger WrittenAt(nn, offsets, data, k)} :: 0 <= k < |nn| ==> WrittenAt(nn, offsets, data, k)
  }

  predicate WrittenAt(nn: seq<Col>, offsets: seq<nat>, data: seq<byte>, k: nat)
    requires NotNull(nn) && |offsets| == |nn| && k < |nn|
  {
    var start := if k > 0 then offsets[k - 1] else 0;
    start <= offsets[k] <= |data| && Written(nn[k].value, data[start..offsets[k]])
  }

  /** The exact condition on what is left over in an encoder. A large row survives if its data is under 2^32 bytes. A row of
      fewer than 65535 bytes survives if what is left over is no longer than its own list of
      offsets and agrees with it in 16 bits. A row of exactly 65535 bytes, whose own offsets are
      not written, survives if what is left over are its own offsets; or if more is left over and
      every column happens to be written between the offsets in the bytes of the rest and the data. */
  ghost predicate Spared(nn: seq<Col>, nulls: seq<Col>, stale: seq<nat>)
    requires NotNull(nn)
  {
    if WideIds(nn, nulls) || |Concat(nn)| > MAX_UINT16 then |Concat(nn)| < TWO_32
    else if |Concat(nn)| < MAX_UINT16 then
      |stale| <= |nn| && forall i :: 0 <= i < |stale| ==> stale[i] % 0x1_0000 == Offsets(nn)[i]
    else if |stale| <= |nn| then stale == Offsets(nn)
    else LaidOut(nn, stale[..|nn|], Pack(stale[|nn|..], 4) + Concat(nn))
  }

  // ---- reading any row with the right ids --------------------------------------------------

  lemma ReadsSlice(nn: seq<Col>, nulls: seq<Col>, r: Row, k: nat)
    requires Layout(nn, nulls) && NotNull(nn) && r.Wf() && HasIds(r, nn, nulls) && k < |nn|
    ensures ReadColumn(r, Ask(nn[k])) == Ok(CellOf(nn[k].value)) <==> WrittenAt(nn, r.offsets, r.data, k)
  {
    SearchNotNull(nn, nulls, r, nn[k].id);
    var s := Search(r.ids, 0, r.n, nn[k].id);
    assert s.value.At? && s.value.index == k;
    if GetData(r, k).Ok? {
      WrittenIff(nn[k].value, GetData(r, k).value);
    }
  }

  /** Values survive in bytes that parse with the right ids exactly if they are laid out. */
  lemma SurviveLaidOut(nn: seq<Col>, nulls: seq<Col>, b: seq<byte>)
    requires Layout(nn, nulls) && NotNull(nn) && SetRowData(b).Ok? && HasIds(SetRowData(b).value, nn, nulls)
    ensures var r := SetRowData(b).value;
            ValuesSurvive(nn, b) <==> LaidOut(nn, r.offsets, r.data)
  {
    var r := SetRowData(b).value;
    forall k | 0 <= k < |nn|
      ensures ReadRow(b, Ask(nn[k])) == Ok(CellOf(nn[k].value)) <==> WrittenAt(nn, r.offsets, r.data, k)
    {
      ReadsSlice(nn, nulls, r, k);
    }
  }

  // ---- no room to spare --------------------------------------------------------------------

  lemma WrittenRoom(d: Datum, s: seq<byte>)
    requires !d.Null? && Written(d, s)
    ensures |s| >= |EncodeDatum(d)|
  {
  }

  /** Columns laid out end no earlier than they should. */
  lemma {:induction false} EndsNoEarlier(nn: seq<Col>, offsets: seq<nat>, data: seq<byte>, k: nat)
    requires NotNull(nn) && |offsets| == |nn| && LaidOut(nn, offsets, data) && k < |nn|
    ensures End(nn, k + 1) <= offsets[k] <= |data|
  {
    assert WrittenAt(nn, offsets, data, k);
    var start := if k > 0 then offsets[k - 1] else 0;
    WrittenRoom(nn[k].value, data[start..offsets[k]]);
    EndGrows(nn, k);
    if k > 0 {
      EndsNoEarlier(nn, offsets, data, k - 1);
    }
  }

  /** If the last ends where it should, none ends later than it should. */
  lemma {:induction false} EndsNoLater(nn: seq<Col>, offsets: seq<nat>, data: seq<byte>, k: nat)
    requires NotNull(nn) && |offsets| == |nn| && LaidOut(nn, offsets, data) && k < |nn|
    requires offsets[|nn| - 1] <= |Concat(nn)|
    ensures offsets[k] <= End(nn, k + 1)
    decreases |nn| - k
  {
    if k + 1 == |nn| {
      assert nn[..|nn|] == nn;
    } else {
      assert WrittenAt(nn, offsets, data, k + 1);
      WrittenRoom(nn[k + 1].value, data[offsets[k]..offsets[k + 1]]);
      EndGrows(nn, k + 1);
      EndsNoLater(nn, offsets, data, k + 1);
    }
  }

  lemma OwnOffsets(nn: seq<Col>, offsets: seq<nat>, data: seq<byte>)
    requires NotNull(nn) && |offsets| == |nn| && LaidOut(nn, offsets, data)
    requires nn != [] ==> offsets[|nn| - 1] <= |Concat(nn)|
    ensures offsets == Offsets(nn)
  {
    forall k | 0 <= k < |nn| ensures offsets[k] == Offsets(nn)[k] {
      EndsNoEarlier(nn, offsets, data, k);
      EndsNoLater(nn, offsets, data, k);
    }
  }

  /** Bytes of just the right number hold a value only as its encoding. */
  lemma WrittenExact(d: Datum, s: seq<byte>)
    requires !d.Null? && |s| == |EncodeDatum(d)|
    ensures Written(d, s) <==> s == EncodeDatum(d)
  {
    CellRoundTrip(d);
    WrittenIff(d, EncodeDatum(d));
    assert s[..|s|] == s && EncodeDatum(d)[..|s|] == EncodeDatum(d);
  }

  lemma OwnWrittenAt(nn: seq<Col>, data: seq<byte>, k: nat)
    requires NotNull(nn) && k < |nn|
    ensures End(nn, k) <= End(nn, k + 1)
    ensures WrittenAt(nn, Offsets(nn), data, k)
            <==> End(nn, k + 1) <= |data| && data[End(nn, k)..End(nn, k + 1)] == EncodeDatum(nn[k].value)
  {
    EndGrows(nn, k);
    if End(nn, k + 1) <= |data| {
      WrittenExact(nn[k].value, data[End(nn, k)..End(nn, k + 1)]);
    }
  }

  lemma {:induction false} LaidOutPrefix(nn: seq<Col>, data: seq<byte>, k: nat)
    requires NotNull(nn) && LaidOut(nn, Offsets(nn), data) && k <= |nn|
    ensures Concat(nn[..k]) <= data
  {
    if k > 0 {
      LaidOutPrefix(nn, data, k - 1);
      assert WrittenAt(nn, Offsets(nn), data, k - 1);
      NextPrefix(nn, data, k - 1);
    }
  }

  lemma NextPrefix(nn: seq<Col>, data: seq<byte>, k: nat)
    requires NotNull(nn) && k < |nn| && WrittenAt(nn, Offsets(nn), data, k) && Concat(nn[..k]) <= data
    ensures Concat(nn[..k + 1]) <= data
  {
    OwnWrittenAt(nn, data, k);
    EndStep(nn, k);
    LongerPrefix(Concat(nn[..k]), EncodeDatum(nn[k].value), data);
  }

  lemma LongerPrefix(p: seq<byte>, x: seq<byte>, data: seq<byte>)
    requires p <= data && |p| + |x| <= |data| && data[|p|..|p| + |x|] == x
    ensures p + x <= data
  {
    assert data[..|p| + |x|] == data[..|p|] + data[|p|..|p| + |x|];
  }

  /** By their own offsets, columns are laid out in exactly the data that begins with theirs. */
  lemma OwnLaidOutIff(nn: seq<Col>, data: seq<byte>)
    requires NotNull(nn)
    ensures LaidOut(nn, Offsets(nn), data) <==> Concat(nn) <= data
  {
    if Concat(nn) <= data {
      forall k | 0 <= k < |nn| ensures WrittenAt(nn, Offsets(nn), data, k) {
        ColumnSlice(nn, k);
        OwnWrittenAt(nn, data, k);
      }
    } else if LaidOut(nn, Offsets(nn), data) {
      assert nn[..|nn|] == nn;
      LaidOutPrefix(nn, data, |nn|);
    }
  }

  /** With no room to spare, columns are laid out by their own offsets and no others. */
  lemma LaidOutIff(nn: seq<Col>, offsets: seq<nat>, data: seq<byte>)
    requires NotNull(nn) && |offsets| == |nn| && (nn != [] ==> offsets[|nn| - 1] <= |Concat(nn)|)
    ensures LaidOut(nn, offsets, data) <==> offsets == Offsets(nn) && Concat(nn) <= data
  {
    OwnLaidOutIff(nn, data);
    if LaidOut(nn, offsets, data) {
      OwnOffsets(nn, offsets, data);
    }
  }

  /** In data of just the right length there is none to spare. */
  lemma TightIff(nn: seq<Col>, offsets: seq<nat>)
    requires NotNull(nn) && |offsets| == |nn|
    ensures LaidOut(nn, offsets, Concat(nn)) <==> offsets == Offsets(nn)
  {
    OwnLaidOutIff(nn, Concat(nn));
    if LaidOut(nn, offsets, Concat(nn)) && nn != [] {
      assert WrittenAt(nn, offsets, Concat(nn), |nn| - 1);
      OwnOffsets(nn, offsets, Concat(nn));
    }
  }

  // ---- what is left over in small rows -----------------------------------------------------

  lemma OverwriteSame(offsets: seq<nat>, stale: seq<nat>)
    requires |stale| <= |offsets|
    ensures Overwrite(offsets, stale) == offsets <==> forall i :: 0 <= i < |stale| ==> stale[i] == offsets[i]
  {
    if Overwrite(offsets, stale) == offsets {
      forall i | 0 <= i < |stale| ensures stale[i] == offsets[i] {
        assert Overwrite(offsets, stale)[i] == stale[i];
      }
    }
  }

  lemma SmallOffsets(nn: seq<Col>, stale: seq<nat>)
    requires NotNull(nn) && |Concat(nn)| < MAX_UINT16 && |stale| <= |nn|
    ensures Pow256(2) == 0x1_0000
    ensures var mixed := Overwrite(Offsets(nn), Mod(stale, 0x1_0000));
            |mixed| == |nn| && forall i :: 0 <= i < |mixed| ==> mixed[i] < 0x1_0000
  {
    Powers();
    var mixed := Overwrite(Offsets(nn), Mod(stale, 0x1_0000));
    forall i | 0 <= i < |mixed| ensures mixed[i] < 0x1_0000 {
      OffsetsWithin(nn, i);
    }
  }

  lemma SmallIff(nn: seq<Col>, nulls: seq<Col>, stale: seq<nat>)
    requires Layout(nn, nulls) && NotNull(nn) && !WideIds(nn, nulls)
    requires |Concat(nn)| < MAX_UINT16 && |stale| <= |nn|
    ensures Survives(nn, nulls, stale)
            <==> forall i :: 0 <= i < |stale| ==> stale[i] % 0x1_0000 == Offsets(nn)[i]
  {
    var left := Mod(stale, 0x1_0000);
    var mixed := Overwrite(Offsets(nn), left);
    SmallOffsets(nn, stale);
    IdsFit(nn, nulls);
    var b := SmallRow(Ids(nn) + Ids(nulls), |nn|, |nulls|, mixed, Concat(nn));
    assert Build(nn, nulls, stale) == Ok(b);
    ParseRow(false, Ids(nn) + Ids(nulls), |nn|, |nulls|, mixed, Concat(nn));
    SurviveLaidOut(nn, nulls, b);
    TightIff(nn, mixed);
    OverwriteSame(Offsets(nn), left);
  }

  // ---- and in rows of exactly 65535 bytes --------------------------------------------------

  lemma {:induction false} PackSplit(xs: seq<nat>, n: nat, width: nat)
    requires n <= |xs|
    ensures Pack(xs, width) == Pack(xs[..n], width) + Pack(xs[n..], width)
  {
    if n > 0 {
      assert xs[..n][1..] == xs[1..][..n - 1] && xs[1..][n - 1..] == xs[n..];
      PackSplit(xs[1..], n - 1, width);
    } else {
      assert xs[n..] == xs;
    }
  }

  lemma ParseLarge(ids: seq<nat>, n: nat, m: nat, offsets: seq<nat>, data: seq<byte>)
    requires |ids| == n + m <= MAX_UINT16 && |offsets| == n
    requires forall i :: 0 <= i < |ids| ==> ids[i] < TWO_32
    requires forall i :: 0 <= i < n ==> offsets[i] < TWO_32
    ensures SetRowData(LargeRow(ids, n, m, offsets, data)) == Ok(Row(true, n, m, ids, offsets, data))
  {
    Powers();
    ParseRow(true, ids, n, m, offsets, data);
  }

  /** With at least as many offsets left over as it has columns, the row is read by the first of
      them, the others counting as data. */
  lemma ParseEnough(nn: seq<Col>, nulls: seq<Col>, stale: seq<nat>)
    requires Layout(nn, nulls) && NotNull(nn) && Forgotten(nn, nulls) && |stale| >= |nn|
    requires forall i :: 0 <= i < |stale| ==> stale[i] < TWO_32
    ensures var ids, n, m, data := Ids(nn) + Ids(nulls), |nn|, |nulls|, Concat(nn);
            && Build(nn, nulls, stale) == Ok(LargeRow(ids, n, m, stale, data))
            && SetRowData(LargeRow(ids, n, m, stale, data))
               == Ok(Row(true, n, m, ids, stale[..n], Pack(stale[n..], 4) + data))
  {
    var ids, n, m, data := Ids(nn) + Ids(nulls), |nn|, |nulls|, Concat(nn);
    LargeRowSplit(ids, n, m, stale, data);
    IdsWithin(nn, nulls);
    ParseLarge(ids, n, m, stale[..n], Pack(stale[n..], 4) + data);
  }

  lemma IdsWithin(nn: seq<Col>, nulls: seq<Col>)
    requires Layout(nn, nulls)
    ensures forall i :: 0 <= i < |nn| + |nulls| ==> (Ids(nn) + Ids(nulls))[i] < TWO_32
  {
  }

  lemma LargeRowSplit(ids: seq<nat>, n: nat, m: nat, offsets: seq<nat>, data: seq<byte>)
    requires n <= |offsets|
    ensures LargeRow(ids, n, m, offsets, data) == LargeRow(ids, n, m, offsets[..n], Pack(offsets[n..], 4) + data)
  {
    PackSplit(offsets, n, 4);
    SameBytes(Header(true, n, m) + Pack(ids, 4), Pack(offsets[..n], 4), Pack(offsets[n..], 4), data);
  }

  lemma SameBytes(a: seq<byte>, b: seq<byte>, c: seq<byte>, d: seq<byte>)
    ensures a + (b + c) + d == a + b + (c + d)
  {
  }

  lemma ForgottenEnough(nn: seq<Col>, nulls: seq<Col>, stale: seq<nat>)
    requires Layout(nn, nulls) && NotNull(nn) && Forgotten(nn, nulls) && |stale| >= |nn|
    requires forall i :: 0 <= i < |stale| ==> stale[i] < TWO_32
    ensures Survives(nn, nulls, stale) <==> Spared(nn, nulls, stale)
  {
    ParseEnough(nn, nulls, stale);
    SurviveLaidOut(nn, nulls, Build(nn, nulls, stale).value);
    if |stale| == |nn| {
      assert stale[..|nn|] == stale && Pack(stale[|nn|..], 4) + Concat(nn) == Concat(nn);
      TightIff(nn, stale);
    }
  }

  /** With fewer, the missing offsets are taken from the data, which is then too short. */
  lemma ForgottenShort(nn: seq<Col>, nulls: seq<Col>, stale: seq<nat>)
    requires Layout(nn, nulls) && NotNull(nn) && Forgotten(nn, nulls) && |stale| < |nn|
    ensures !Survives(nn, nulls, stale)
  {
    var ids, n, m, data := Ids(nn) + Ids(nulls), |nn|, |nulls|, Concat(nn);
    var rest := Pack(stale, 4) + data;
    var b := LargeRow(ids, n, m, stale, data);
    IdsFit(nn, nulls);
    ParseIds(true, ids, n, m, rest);
    Reassociate(Header(true, n, m), Pack(ids, 4), Pack(stale, 4), data);
    assert SetRowData(b) == ParseOffsets(true, n, m, ids, rest);
    if SetRowData(b).Ok? {
      SurviveLaidOut(nn, nulls, b);
      TooShort(nn, SetRowData(b).value.offsets, SetRowData(b).value.data);
    } else {
      assert ReadRow(b, Ask(nn[0])) == Panic;
    }
  }

  lemma TooShort(nn: seq<Col>, offsets: seq<nat>, data: seq<byte>)
    requires NotNull(nn) && |offsets| == |nn| && nn != [] && |data| < |Concat(nn)|
    ensures !LaidOut(nn, offsets, data)
  {
    if LaidOut(nn, offsets, data) {
      assert nn[..|nn|] == nn;
      EndsNoEarlier(nn, offsets, data, |nn| - 1);
    }
  }

  /** Values survive a used encoder if and only if the row is spared by what is left over in it. */
  lemma ReuseSurvivesIff(nn: seq<Col>, nulls: seq<Col>, stale: seq<nat>)
    requires Layout(nn, nulls) && NotNull(nn)
    requires forall i :: 0 <= i < |stale| ==> stale[i] < TWO_32
    ensures Survives(nn, nulls, stale) <==> Spared(nn, nulls, stale)
  {
    if WideIds(nn, nulls) || |Concat(nn)| > MAX_UINT16 {
      SurvivesIff(nn, nulls);
      assert Build(nn, nulls, stale) == Build(nn, nulls, []);
    } else if |Concat(nn)| < MAX_UINT16 {
      if |stale| <= |nn| {
        SmallIff(nn, nulls, stale);
      }
    } else if |stale| < |nn| {
      ForgottenShort(nn, nulls, stale);
    } else {
      ForgottenEnough(nn, nulls, stale);
    }
  }

  /** With more left over than a row of exactly 65535 bytes has columns, and the last of those it
      takes not past its data: it survives exactly if they are its own offsets and its data begins
      the bytes of the rest followed by itself. */
  lemma SparedByMore(nn: seq<Col>, nulls: seq<Col>, stale: seq<nat>)
    requires NotNull(nn) && Forgotten(nn, nulls) && |stale| > |nn| && stale[|nn| - 1] <= MAX_UINT16
    ensures Spared(nn, nulls, stale)
            <==> stale[..|nn|] == Offsets(nn) && Concat(nn) <= Pack(stale[|nn|..], 4) + Concat(nn)
  {
    LaidOutIff(nn, stale[..|nn|], Pack(stale[|nn|..], 4) + Concat(nn));
  }

  // ---- row after row -----------------------------------------------------------------------

  /** The not-null and null columns of a row, each by ascending id. */
  datatype Laid = Laid(nn: seq<Col>, nulls: seq<Col>)

  predicate AllNotNull(rows: seq<Laid>) {
    forall i {:trigger rows[i]} :: 0 <= i < |rows| ==> NotNull(rows[i].nn)
  }

  /** What an encoder new at first holds after these rows: the offsets of the last large one. */
  function LeftAfter(rows: seq<Laid>): (r: seq<nat>)
    requires AllNotNull(rows)
    ensures forall i :: 0 <= i < |r| ==> r[i] < TWO_32
  {
    if rows == [] then []
    else
      var last := rows[|rows| - 1];
      LeftBy(last.nn, last.nulls, LeftAfter(rows[..|rows| - 1]))
  }

  /** Row `i` was written as `b`, over what the rows before it left. */
  ghost predicate Encoded(row: seq<Col>, b: Outcome<seq<byte>>, laid: seq<Laid>, i: nat)
    requires AllNotNull(laid) && i < |laid|
  {
    Sorts(row, laid[i].nn, laid[i].nulls) && b == Build(laid[i].nn, laid[i].nulls, LeftAfter(laid[..i]))
  }

  /** The row survives in `b` exactly if it is spared by what the rows before it left. */
  ghost predicate SurvivesIfSpared(b: Outcome<seq<byte>>, laid: seq<Laid>, i: nat)
    requires AllNotNull(laid) && i < |laid|
  {
    b.Ok? && ValuesSurvive(laid[i].nn, b.value) <==> Spared(laid[i].nn, laid[i].nulls, LeftAfter(laid[..i]))
  }

  lemma EncodedSurvives(row: seq<Col>, b: Outcome<seq<byte>>, laid: seq<Laid>, i: nat)
    requires AllNotNull(laid) && i < |laid| && Encodable(row) && Encoded(row, b, laid, i)
    ensures SurvivesIfSpared(b, laid, i)
  {
    SortsLayout(row, laid[i].nn, laid[i].nulls);
    ReuseSurvivesIff(laid[i].nn, laid[i].nulls, LeftAfter(laid[..i]));
  }

  lemma OneMoreRow(laid: seq<Laid>, x: Laid)
    requires AllNotNull(laid) && NotNull(x.nn)
    ensures AllNotNull(laid + [x]) && LeftAfter(laid + [x]) == LeftBy(x.nn, x.nulls, LeftAfter(laid))
  {
    assert (laid + [x])[..|laid|] == laid;
  }

  ghost predicate AllEncoded(rows: seq<seq<Col>>, bs: seq<Outcome<seq<byte>>>, laid: seq<Laid>) {
    && |bs| == |laid| <= |rows| && AllNotNull(laid)
    && forall i {:trigger Encoded(rows[i], bs[i], laid, i)} :: 0 <= i < |laid| ==> Encoded(rows[i], bs[i], laid, i)
  }

  lemma AllEncodedMore(rows: seq<seq<Col>>, bs: seq<Outcome<seq<byte>>>, laid: seq<Laid>, b: Outcome<seq<byte>>, x: Laid)
    requires AllEncoded(rows, bs, laid) && |laid| < |rows| && NotNull(x.nn) && AllNotNull(laid + [x])
    requires Encoded(rows[|laid|], b, laid + [x], |laid|)
    ensures AllEncoded(rows, bs + [b], laid + [x])
  {
    var bs', laid' := bs + [b], laid + [x];
    forall i | 0 <= i < |laid'| ensures Encoded(rows[i], bs'[i], laid', i) {
      if i < |laid| {
        assert bs'[i] == bs[i];
        assert Encoded(rows[i], bs[i], laid, i);
        StaysEncoded(rows[i], bs[i], laid, x, i);
      } else {
        assert bs'[i] == b && i == |laid|;
      }
    }
  }

  lemma StaysEncoded(row: seq<Col>, b: Outcome<seq<byte>>, laid: seq<Laid>, x: Laid, i: nat)
    requires AllNotNull(laid) && AllNotNull(laid + [x]) && i < |laid| && Encoded(row, b, laid, i)
    ensures Encoded(row, b, laid + [x], i)
  {
    assert (laid + [x])[..i] == laid[..i] && (laid + [x])[i] == laid[i];
  }

  /** Any number of rows through one encoder: each is what Build makes of it and of the offsets of
      the last large row before it, and survives exactly if it is spared by those. */
  method EncodeAll(e: Encoder, rows: seq<seq<Col>>) returns (bs: seq<Outcome<seq<byte>>>, ghost laid: seq<Laid>)
    requires e.offsets32 == [] && forall i :: 0 <= i < |rows| ==> Encodable(rows[i])
    modifies e
    ensures |laid| == |rows| && AllEncoded(rows, bs, laid)
    ensures forall i {:trigger laid[i]} :: 0 <= i < |rows| ==> SurvivesIfSpared(bs[i], laid, i)
  {
    bs, laid := [], [];
    for i := 0 to |rows|
      invariant |laid| == i && AllEncoded(rows, bs, laid) && e.offsets32 == LeftAfter(laid)
    {
      var b;
      ghost var x;
      b, x := EncodeNext(e, rows[i], laid);
      AllEncodedMore(rows, bs, laid, b, x);
      bs, laid := bs + [b], laid + [x];
    }
    forall i | 0 <= i < |rows| ensures SurvivesIfSpared(bs[i], laid, i) {
      assert Encoded(rows[i], bs[i], laid, i);
      EncodedSurvives(rows[i], bs[i], laid, i);
    }
  }

  method EncodeNext(e: Encoder, row: seq<Col>, ghost laid: seq<Laid>) returns (b: Outcome<seq<byte>>, ghost x: Laid)
    requires AllNotNull(laid) && e.offsets32 == LeftAfter(laid) && Encodable(row)
    modifies e
    ensures NotNull(x.nn) && AllNotNull(laid + [x]) && Encoded(row, b, laid + [x], |laid|)
    ensures e.offsets32 == LeftAfter(laid + [x])
  {
    ghost var nn, nulls;
    assert Zip(Ids(row), Values(row)) == row;
    b, nn, nulls := e.Encode(Ids(row), Values(row));
    x := Laid(nn, nulls);
    OneMoreRow(laid, x);
    assert (laid + [x])[..|laid|] == laid;
  }

  lemma ZipOne(id: nat, d: Datum)
    ensures Zip([id], [d]) == [Col(id, d)]
    ensures id < TWO_32 ==> Encodable([Col(id, d)])
  {
  }

  lemma OneColumn(c: Col, nn: seq<Col>, nulls: seq<Col>)
    requires !c.value.Null? && Sorts([c], nn, nulls)
    ensures nn == [c] && nulls == []
  {
    assert [c][..0] == [];
    assert NotNulls([c]) == [c] && Nulls([c]) == [];
    SameLength(nn, [c]);
    SameLength(nulls, []);
    assert nn[0] in multiset([c]);
  }

  lemma OneColumnRow(c: Col)
    requires !c.value.Null? && c.id < TWO_32
    ensures NotNull([c]) && Layout([c], []) && Concat([c]) == EncodeDatum(c.value)
    ensures |Offsets([c])| == 1 && Offsets([c])[0] == |EncodeDatum(c.value)|
    ensures WideIds([c], []) <==> c.id > 255
  {
    var nn := [c];
    assert nn[..0] == [] && nn[..1] == nn;
    assert nn[0].id == c.id;
  }

  /** A large row of one column leaves its one offset. */
  lemma FirstLeaves(c: Col)
    requires !c.value.Null? && 255 < c.id < TWO_32 && |EncodeDatum(c.value)| < TWO_32
    ensures LeftBy([c], [], []) == [|EncodeDatum(c.value)|]
  {
    OneColumnRow(c);
    ModSmall(Offsets([c]), TWO_32);
  }

  /** Over what it leaves, a small row of one column of another length is lost. */
  lemma SecondLost(c: Col, left: nat)
    requires !c.value.Null? && c.id <= 255 && left < 0x1_0000
    requires |EncodeDatum(c.value)| < MAX_UINT16 && |EncodeDatum(c.value)| != left
    ensures NotNull([c]) && Build([c], [], [left]).Ok?
    ensures ReadRow(Build([c], [], [left]).value, Ask(c)) != Ok(CellOf(c.value))
  {
    OneColumnRow(c);
    var nn, stale := [c], [left];
    SmallIff(nn, [], stale);
    RemainderSmall(left, 0x1_0000);
    assert stale[0] % 0x1_0000 == left != Offsets(nn)[0];
    assert nn[0] == c;
  }

  /** A used encoder can lose a row: after a large row of one column of one byte, the next row's
      column of two bytes does not come back. */
  method ReuseLoses() returns (b: Outcome<seq<byte>>)
    ensures b.Ok? && ReadRow(b.value, Request(1, BytesType, NoDefault)) != Ok(BytesCell([7, 8]))
  {
    var e := new Encoder();
    FirstRow(e);
    b := SecondRow(e);
  }

  method FirstRow(e: Encoder)
    requires e.offsets32 == []
    modifies e
    ensures e.offsets32 == [1]
  {
    ghost var nn, nulls;
    ZipOne(256, Raw([7]));
    var b;
    b, nn, nulls := e.Encode([256], [Raw([7])]);
    OneColumn(Col(256, Raw([7])), nn, nulls);
    FirstLeaves(Col(256, Raw([7])));
  }

  method SecondRow(e: Encoder) returns (b: Outcome<seq<byte>>)
    requires e.offsets32 == [1]
    modifies e
    ensures b.Ok? && ReadRow(b.value, Request(1, BytesType, NoDefault)) != Ok(BytesCell([7, 8]))
  {
    ghost var nn, nulls;
    ZipOne(1, Raw([7, 8]));
    b, nn, nulls := e.Encode([1], [Raw([7, 8])]);
    OneColumn(Col(1, Raw([7, 8])), nn, nulls);
    SecondLost(Col(1, Raw([7, 8])), 1);
  }

  /** And it can save one that a new encoder loses: a row of exactly 65535 bytes after a large row
      with the same offsets. */
  lemma ReuseCanSave(nn: seq<Col>, nulls: seq<Col>)
    requires Layout(nn, nulls) && NotNull(nn) && Forgotten(nn, nulls)
    ensures Survives(nn, nulls, Offsets(nn)) && !Survives(nn, nulls, [])
  {
    forall i | 0 <= i < |nn| ensures Offsets(nn)[i] < TWO_32 {
      OffsetsWithin(nn, i);
    }
    ReuseSurvivesIff(nn, nulls, Offsets(nn));
    ForgottenFails(nn, nulls);
  }
}
