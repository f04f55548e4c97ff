/** Reading a built row gives back what was stored, exactly unless the row is one whose offsets the
    encoder forgets to write, or one so long that they wrap. */
module RowRoundTrip {
  import opened Bytes
  import opened RowFormat
  import opened RowLayout

  /** What a request should give: the stored value read as asked, null for a null column, the
      default for an absent one. */
  ghost function Expected(nn: seq<Col>, nulls: seq<Col>, q: Request): Outcome<Cell>
    requires NotNull(nn)
  {
    if exists i :: 0 <= i < |nn| && nn[i].id == q.id then
      var i :| 0 <= i < |nn| && nn[i].id == q.id;
      DecodeCell(q.tp, EncodeDatum(nn[i].value))
    else if exists i :: 0 <= i < |nulls| && nulls[i].id == q.id then Ok(NullCell)
    else if q.default.NoDefault? then Ok(NullCell)
    else DecodeCell(q.tp, q.default.data)
  }

  /** The rows `build` gets wrong: ids of one byte and exactly 65535 bytes of data. */
  predicate Forgotten(nn: seq<Col>, nulls: seq<Col>)
    requires NotNull(nn)
  {
    !WideIds(nn, nulls) && |Concat(nn)| == MAX_UINT16
  }

  // ---- parsing what was built --------------------------------------------------------------

  lemma ParseHeader(large: bool, n: nat, m: nat, rest: seq<byte>)
    requires n < 0x1_0000 && m < 0x1_0000
    ensures var b := Header(large, n, m) + rest;
            && |b| >= 6 && b[0] == CODEC_VER && (b[1] % 2 == 1 <==> large)
            && Uint16(b[2..4]) == n && Uint16(b[4..6]) == m && b[6..] == rest
  {
    Powers();
    var b := Header(large, n, m) + rest;
    assert b[2..4] == LittleEndian(n, 2) && b[4..6] == LittleEndian(m, 2);
    LittleEndianRoundTrip(n, 2);
    LittleEndianRoundTrip(m, 2);
  }

  lemma ParseBodyIds(large: bool, ids: seq<nat>, n: nat, m: nat, rest: seq<byte>)
    requires |ids| == n + m <= MAX_UINT16
    requires forall i :: 0 <= i < |ids| ==> ids[i] < Pow256(IdWidth(large))
    ensures ParseBody(large, n, m, Pack(ids, IdWidth(large)) + rest) == ParseOffsets(large, n, m, ids, rest)
  {
    var w, c := IdWidth(large), n + m;
    RemainderSmall(c, 0x1_0000);
    UnpackPack(ids, w);
    SplitAt(Pack(ids, w), rest, c * w);
  }

  lemma SplitAt(a: seq<byte>, b: seq<byte>, n: nat)
    requires |a| == n
    ensures (a + b)[..n] == a && (a + b)[n..] == b
  {
  }

  /** A header and a packed id list parse back, whatever follows; the offsets are then read from
      what follows. */
  lemma ParseIds(large: bool, ids: seq<nat>, n: nat, m: nat, rest: seq<byte>)
    requires |ids| == n + m <= MAX_UINT16
    requires forall i :: 0 <= i < |ids| ==> ids[i] < Pow256(IdWidth(large))
    ensures SetRowData(Header(large, n, m) + (Pack(ids, IdWidth(large)) + rest)) == ParseOffsets(large, n, m, ids, rest)
  {
    var body := Pack(ids, IdWidth(large)) + rest;
    ParseHeader(large, n, m, body);
    ParseBodyIds(large, ids, n, m, rest);
    assert SetRowData(Header(large, n, m) + body) == ParseBody(large, n, m, body);
  }

  /** The offsets of a well-built row parse back too. */
  lemma ParseRow(large: bool, ids: seq<nat>, n: nat, m: nat, offsets: seq<nat>, data: seq<byte>)
    requires |ids| == n + m <= MAX_UINT16 && |offsets| == n
    requires forall i :: 0 <= i < |ids| ==> ids[i] < Pow256(IdWidth(large))
    requires forall i :: 0 <= i < n ==> offsets[i] < Pow256(OffsetWidth(large))
    ensures SetRowData(if large then LargeRow(ids, n, m, offsets, data) else SmallRow(ids, n, m, offsets, data)) ==
            Ok(Row(large, n, m, ids, offsets, data))
  {
    var packed := Pack(offsets, OffsetWidth(large));
    ParseIds(large, ids, n, m, packed + data);
    ParsePacked(large, ids, n, m, offsets, data);
    Reassociate(Header(large, n, m), Pack(ids, IdWidth(large)), packed, data);
  }

  lemma Reassociate(a: seq<byte>, b: seq<byte>, c: seq<byte>, d: seq<byte>)
    ensures a + b + c + d == a + (b + (c + d))
  {
  }

  lemma ParsePacked(large: bool, ids: seq<nat>, n: nat, m: nat, offsets: seq<nat>, data: seq<byte>)
    requires |offsets| == n && forall i :: 0 <= i < n ==> offsets[i] < Pow256(OffsetWidth(large))
    ensures ParseOffsets(large, n, m, ids, Pack(offsets, OffsetWidth(large)) + data)
            == Ok(Row(large, n, m, ids, offsets, data))
  {
    UnpackPack(offsets, OffsetWidth(large));
    SplitAt(Pack(offsets, OffsetWidth(large)), data, n * OffsetWidth(large));
  }

  lemma IdsFit(nn: seq<Col>, nulls: seq<Col>)
    requires Layout(nn, nulls)
    ensures Pow256(4) == TWO_32 && Pow256(1) == 256 && Pow256(2) == 0x1_0000
    ensures var ids := Ids(nn) + Ids(nulls);
            && |ids| == |nn| + |nulls|
            && (forall i :: 0 <= i < |ids| ==> ids[i] < TWO_32)
            && (!WideIds(nn, nulls) ==> forall i :: 0 <= i < |ids| ==> ids[i] < 256)
  {
    Powers();
  }

  /** Column `i` occupies the bytes between its offsets. */
  lemma ColumnSlice(nn: seq<Col>, i: nat)
    requires NotNull(nn) && i < |nn|
    ensures End(nn, i) <= End(nn, i + 1) <= |Concat(nn)|
    ensures Concat(nn)[End(nn, i)..End(nn, i + 1)] == EncodeDatum(nn[i].value)
  {
    EndsAscend(nn, i, i + 1);
    EndsAscend(nn, i + 1, i + 1);
    EndStep(nn, i);
    assert Concat(nn)[..End(nn, i + 1)] == Concat(nn[..i + 1]);
    assert Concat(nn)[End(nn, i)..End(nn, i + 1)] == Concat(nn)[..End(nn, i + 1)][End(nn, i)..];
  }

  /** The row an encoder that has not forgotten anything writes. */
  function BuiltRow(nn: seq<Col>, nulls: seq<Col>): Row
    requires NotNull(nn)
  {
    Row(WideIds(nn, nulls) || |Concat(nn)| > MAX_UINT16, |nn|, |nulls|, Ids(nn) + Ids(nulls), Offsets(nn), Concat(nn))
  }

  lemma OffsetsWithin(nn: seq<Col>, i: nat)
    requires NotNull(nn) && i < |nn|
    ensures Offsets(nn)[i] <= |Concat(nn)|
  {
    EndsAscend(nn, i + 1, i + 1);
  }

  lemma ModSmall(xs: seq<nat>, m: nat)
    requires m > 0 && forall i :: 0 <= i < |xs| ==> xs[i] < m
    ensures Mod(xs, m) == xs
  {
    forall i | 0 <= i < |xs| ensures Mod(xs, m)[i] == xs[i] {
      RemainderSmall(xs[i], m);
    }
  }

  /** The bytes of a row that is not forgotten, in the format its size calls for. */
  lemma BuiltBytes(nn: seq<Col>, nulls: seq<Col>)
    requires NotNull(nn) && |Concat(nn)| < TWO_32 && !Forgotten(nn, nulls)
    ensures var r := BuiltRow(nn, nulls);
            Build(nn, nulls, []) == Ok(if r.large then LargeRow(r.ids, r.n, r.m, r.offsets, r.data)
                                       else SmallRow(r.ids, r.n, r.m, r.offsets, r.data))
  {
    if BuiltRow(nn, nulls).large {
      forall i | 0 <= i < |nn| ensures Offsets(nn)[i] < TWO_32 {
        OffsetsWithin(nn, i);
      }
      ModSmall(Offsets(nn), TWO_32);
    } else {
      assert Overwrite(Offsets(nn), Mod([], 0x1_0000)) == Offsets(nn);
    }
  }

  lemma ParseBuilt(nn: seq<Col>, nulls: seq<Col>)
    requires Layout(nn, nulls) && NotNull(nn) && |Concat(nn)| < TWO_32 && !Forgotten(nn, nulls)
    ensures Build(nn, nulls, []).Ok?
    ensures SetRowData(Build(nn, nulls, []).value) == Ok(BuiltRow(nn, nulls))
  {
    var r := BuiltRow(nn, nulls);
    IdsFit(nn, nulls);
    BuiltBytes(nn, nulls);
    forall i | 0 <= i < |nn| ensures r.offsets[i] < Pow256(OffsetWidth(r.large)) {
      OffsetsWithin(nn, i);
    }
    ParseRow(r.large, r.ids, r.n, r.m, r.offsets, r.data);
  }

  // ---- reading what was parsed -------------------------------------------------------------

  /** A row with the ids of a layout, whatever its offsets say. */
  predicate HasIds(r: Row, nn: seq<Col>, nulls: seq<Col>) {
    r.ids == Ids(nn) + Ids(nulls) && r.n == |nn| && r.m == |nulls|
  }

  lemma RowAscending(nn: seq<Col>, nulls: seq<Col>, r: Row)
    requires Layout(nn, nulls) && HasIds(r, nn, nulls)
    ensures forall k :: 0 <= k < r.n ==> r.ids[k] == nn[k].id
    ensures forall k :: r.n <= k < r.n + r.m ==> r.ids[k] == nulls[k - r.n].id
    ensures AscendingIds(r.ids, 0, r.n) && AscendingIds(r.ids, r.n, r.n + r.m)
  {
  }

  lemma SearchNotNull(nn: seq<Col>, nulls: seq<Col>, r: Row, id: int)
    requires Layout(nn, nulls) && HasIds(r, nn, nulls)
    ensures var s := Search(r.ids, 0, r.n, id);
            && s.Ok?
            && (s.value.At? ==> nn[s.value.index].id == id)
            && (s.value.Missing? ==> forall i :: 0 <= i < |nn| ==> nn[i].id != id)
  {
    RowAscending(nn, nulls, r);
    SearchFinds(r.ids, 0, r.n, id);
    if Search(r.ids, 0, r.n, id).value.Missing? {
      forall i | 0 <= i < |nn| ensures nn[i].id != id {
        assert r.ids[i] != id;
      }
    }
  }

  lemma SearchNull(nn: seq<Col>, nulls: seq<Col>, r: Row, id: int)
    requires Layout(nn, nulls) && HasIds(r, nn, nulls)
    ensures var s := Search(r.ids, r.n, r.n + r.m, id);
            && s.Ok?
            && (s.value.At? ==> exists i :: 0 <= i < |nulls| && nulls[i].id == id)
            && (s.value.Missing? ==> forall i :: 0 <= i < |nulls| ==> nulls[i].id != id)
  {
    assert AscendingIds(r.ids, r.n, r.n + r.m) by {
      RowAscending(nn, nulls, r);
    }
    SearchFinds(r.ids, r.n, r.n + r.m, id);
    FoundNull(nn, nulls, r, id, Search(r.ids, r.n, r.n + r.m, id).value);
  }

  /** A position among the null ids, or none, said of the null columns. */
  lemma FoundNull(nn: seq<Col>, nulls: seq<Col>, r: Row, id: int, s: Found)
    requires HasIds(r, nn, nulls)
    requires s.At? ==> r.n <= s.index < r.n + r.m && r.ids[s.index] == id
    requires s.Missing? ==> forall k :: r.n <= k < r.n + r.m ==> r.ids[k] != id
    ensures s.At? ==> exists i :: 0 <= i < |nulls| && nulls[i].id == id
    ensures s.Missing? ==> forall i :: 0 <= i < |nulls| ==> nulls[i].id != id
  {
    if s.At? {
      var k := s.index - r.n;
      NullIdAt(nn, nulls, r, k);
      assert 0 <= k < |nulls| && nulls[k].id == id;
    } else {
      forall i | 0 <= i < |nulls| ensures nulls[i].id != id {
        NullIdAt(nn, nulls, r, i);
      }
    }
  }

  lemma NullIdAt(nn: seq<Col>, nulls: seq<Col>, r: Row, i: nat)
    requires HasIds(r, nn, nulls) && i < |nulls|
    ensures r.ids[r.n + i] == nulls[i].id
  {
  }

  lemma ExpectedAt(nn: seq<Col>, nulls: seq<Col>, q: Request, h: nat)
    requires Layout(nn, nulls) && NotNull(nn) && h < |nn| && nn[h].id == q.id
    ensures Expected(nn, nulls, q) == DecodeCell(q.tp, EncodeDatum(nn[h].value))
  {
    var i :| 0 <= i < |nn| && nn[i].id == q.id && Expected(nn, nulls, q) == DecodeCell(q.tp, EncodeDatum(nn[i].value));
    assert i == h;
  }

  lemma BuiltData(nn: seq<Col>, nulls: seq<Col>, h: nat)
    requires NotNull(nn) && h < |nn|
    ensures GetData(BuiltRow(nn, nulls), h) == Ok(EncodeDatum(nn[h].value))
  {
    ColumnSlice(nn, h);
    assert nn[..0] == [];
  }

  lemma ReadBuilt(nn: seq<Col>, nulls: seq<Col>, q: Request)
    requires Layout(nn, nulls) && NotNull(nn) && BuiltRow(nn, nulls).Wf()
    ensures ReadColumn(BuiltRow(nn, nulls), q) == Expected(nn, nulls, q)
  {
    var r := BuiltRow(nn, nulls);
    SearchNotNull(nn, nulls, r, q.id);
    if Search(r.ids, 0, r.n, q.id).value.At? {
      ReadPresent(nn, nulls, q);
    } else {
      ReadAbsent(nn, nulls, r, q);
    }
  }

  lemma ReadAbsent(nn: seq<Col>, nulls: seq<Col>, r: Row, q: Request)
    requires Layout(nn, nulls) && NotNull(nn) && r.Wf() && HasIds(r, nn, nulls)
    requires Search(r.ids, 0, r.n, q.id) == Ok(Missing) && forall i :: 0 <= i < |nn| ==> nn[i].id != q.id
    ensures ReadColumn(r, q) == Expected(nn, nulls, q)
  {
    SearchNull(nn, nulls, r, q.id);
  }

  lemma ReadPresent(nn: seq<Col>, nulls: seq<Col>, q: Request)
    requires Layout(nn, nulls) && NotNull(nn) && BuiltRow(nn, nulls).Wf()
    requires Search(Ids(nn) + Ids(nulls), 0, |nn|, q.id).Ok? && Search(Ids(nn) + Ids(nulls), 0, |nn|, q.id).value.At?
    ensures ReadColumn(BuiltRow(nn, nulls), q) == Expected(nn, nulls, q)
  {
    var r := BuiltRow(nn, nulls);
    SearchNotNull(nn, nulls, r, q.id);
    var h := Search(r.ids, 0, r.n, q.id).value.index;
    ExpectedAt(nn, nulls, q, h);
    BuiltData(nn, nulls, h);
  }

  /** Round trip: every request on a built row gives what was stored, across the promotion to the
      large format, unless the row is a forgotten one. */
  lemma RoundTrip(nn: seq<Col>, nulls: seq<Col>, q: Request)
    requires Layout(nn, nulls) && NotNull(nn) && |Concat(nn)| < TWO_32 && !Forgotten(nn, nulls)
    ensures Build(nn, nulls, []).Ok?
    ensures ReadRow(Build(nn, nulls, []).value, q) == Expected(nn, nulls, q)
  {
    ParseBuilt(nn, nulls);
    ReadBuilt(nn, nulls, q);
  }

  /** The null test agrees with the columns, for every row that parses with the right ids. */
  lemma NullTest(nn: seq<Col>, nulls: seq<Col>, r: Row, id: int, default: Default)
    requires Layout(nn, nulls) && HasIds(r, nn, nulls) && r.Wf()
    ensures ColumnNull(r, id, default) ==
            Ok((forall i :: 0 <= i < |nn| ==> nn[i].id != id) &&
               (default.NoDefault? || exists i :: 0 <= i < |nulls| && nulls[i].id == id))
  {
    SearchNotNull(nn, nulls, r, id);
    SearchNull(nn, nulls, r, id);
  }

  /** A not-null column asked for in its own type. */
  function Ask(c: Col): Request
    requires !c.value.Null?
  {
    Request(c.id, TypeOf(c.value), NoDefault)
  }

  lemma ExpectedValue(nn: seq<Col>, nulls: seq<Col>, i: nat)
    requires Layout(nn, nulls) && NotNull(nn) && i < |nn|
    ensures Expected(nn, nulls, Ask(nn[i])) == Ok(CellOf(nn[i].value))
  {
    CellRoundTrip(nn[i].value);
    ExpectedAt(nn, nulls, Ask(nn[i]), i);
  }

  // ---- the bytes of a row ------------------------------------------------------------------

  lemma HeaderBytes(large: bool, n: nat, m: nat)
    ensures Header(large, n, m) == [128, if large then 1 else 0,
                                    (n % 256) as byte, (n / 256 % 256) as byte, (m % 256) as byte, (m / 256 % 256) as byte]
  {
    assert LittleEndian(n, 2) == [(n % 256) as byte, (n / 256 % 256) as byte];
    assert LittleEndian(m, 2) == [(m % 256) as byte, (m / 256 % 256) as byte];
  }

  /** Three parts after a header of six bytes. */
  lemma PartsAt(h: seq<byte>, a: seq<byte>, b: seq<byte>, c: seq<byte>, i: nat, j: nat)
    requires |h| == 6 && i <= j
    ensures var r := h + a + b + c;
            && r[..6] == h && r[6 + |a| + |b|..] == c
            && (j <= |a| ==> r[6 + i..6 + j] == a[i..j])
            && (j <= |b| ==> r[6 + |a| + i..6 + |a| + j] == b[i..j])
  {
  }

  /** The format of a row, byte by byte: version 128, whether it is large, the numbers of not-null and
      null columns; the ids, `w` bytes each; where each not-null column ends, `ow` bytes each; data. */
  predicate RowAt(b: seq<byte>, r: Row, w: nat, ow: nat, k: nat)
    requires |r.ids| == r.n + r.m && |r.offsets| == r.n
  {
    var offs := 6 + (r.n + r.m) * w;
    && |b| == offs + r.n * ow + |r.data| && offs + r.n * ow >= offs >= 6
    && b[..6] == [128, if r.large then 1 else 0,
                  (r.n % 256) as byte, (r.n / 256 % 256) as byte, (r.m % 256) as byte, (r.m / 256 % 256) as byte]
    && b[offs + r.n * ow..] == r.data
    && (k < r.n + r.m ==> 0 <= k * w && 6 + k * w + w <= |b| && b[6 + k * w..6 + k * w + w] == LittleEndian(r.ids[k], w))
    && (k < r.n ==> 0 <= k * ow && offs + k * ow + ow <= |b|
                    && b[offs + k * ow..offs + k * ow + ow] == LittleEndian(r.offsets[k], ow))
  }

  /** A row that comes back is in this format, with ids not-null ones first. It is large for an id
      above 255 or more than 65535 bytes of data, and then ids and offsets take 4 bytes, else 1 and 2. */
  lemma RowBytes(nn: seq<Col>, nulls: seq<Col>, k: nat)
    requires Layout(nn, nulls) && NotNull(nn) && |Concat(nn)| < TWO_32 && !Forgotten(nn, nulls)
    ensures var large := WideIds(nn, nulls) || |Concat(nn)| > 65535;
            var r := Row(large, |nn|, |nulls|, Ids(nn) + Ids(nulls), Offsets(nn), Concat(nn));
            Build(nn, nulls, []).Ok? && RowAt(Build(nn, nulls, []).value, r, if large then 4 else 1, if large then 4 else 2, k)
  {
    BuiltIsLaid(nn, nulls);
    var r := BuiltRow(nn, nulls);
    LaidBytes(r, IdWidth(r.large), OffsetWidth(r.large), k);
  }

  lemma BuiltIsLaid(nn: seq<Col>, nulls: seq<Col>)
    requires NotNull(nn) && |Concat(nn)| < TWO_32 && !Forgotten(nn, nulls)
    ensures var r := BuiltRow(nn, nulls);
            Build(nn, nulls, []) == Ok(Laid(r, IdWidth(r.large), OffsetWidth(r.large)))
  {
    BuiltBytes(nn, nulls);
  }

  /** A row with ids of `w` bytes and offsets of `ow`. */
  function Laid(r: Row, w: nat, ow: nat): seq<byte> {
    Header(r.large, r.n, r.m) + Pack(r.ids, w) + Pack(r.offsets, ow) + r.data
  }

  lemma LaidBytes(r: Row, w: nat, ow: nat, k: nat)
    requires |r.ids| == r.n + r.m && |r.offsets| == r.n
    ensures RowAt(Laid(r, w, ow), r, w, ow, k)
  {
    HeaderBytes(r.large, r.n, r.m);
    var h, a, o := Header(r.large, r.n, r.m), Pack(r.ids, w), Pack(r.offsets, ow);
    PartsOf(h, a, o, r.data, |r.ids| * w, |r.offsets| * ow);
    if k < r.n + r.m {
      IdAt(h, r.ids, o, r.data, w, k);
    }
    if k < r.n {
      OffsetAt(h, a, r.offsets, r.data, ow, k);
    }
  }

  lemma PartsOf(h: seq<byte>, a: seq<byte>, b: seq<byte>, c: seq<byte>, i: nat, j: nat)
    requires |h| == 6 && |a| == i && |b| == j
    ensures var r := h + a + b + c;
            |r| == 6 + i + j + |c| && r[..6] == h && r[6 + i + j..] == c
  {
  }

  lemma IdAt(h: seq<byte>, ids: seq<nat>, o: seq<byte>, data: seq<byte>, w: nat, k: nat)
    requires |h| == 6 && k < |ids|
    ensures var b := h + Pack(ids, w) + o + data;
            0 <= k * w && 6 + k * w + w <= |b| && b[6 + k * w..6 + k * w + w] == LittleEndian(ids[k], w)
  {
    PackAt(ids, w, k);
    PartsAt(h, Pack(ids, w), o, data, k * w, k * w + w);
  }

  lemma OffsetAt(h: seq<byte>, a: seq<byte>, offsets: seq<nat>, data: seq<byte>, w: nat, k: nat)
    requires |h| == 6 && k < |offsets|
    ensures var b := h + a + Pack(offsets, w) + data;
            && 0 <= k * w && 6 + |a| + k * w + w <= |b|
            && b[6 + |a| + k * w..6 + |a| + k * w + w] == LittleEndian(offsets[k], w)
  {
    PackAt(offsets, w, k);
    PartsAt(h, a, Pack(offsets, w), data, k * w, k * w + w);
  }

  // ---- the rows that do not come back ------------------------------------------------------

  /** All not-null columns read back as stored. */
  ghost predicate ValuesSurvive(nn: seq<Col>, b: seq<byte>)
    requires NotNull(nn)
  {
    forall i :: 0 <= i < |nn| ==> ReadRow(b, Ask(nn[i])) == Ok(CellOf(nn[i].value))
  }

  lemma ForgottenBytes(nn: seq<Col>, nulls: seq<Col>)
    requires NotNull(nn) && Forgotten(nn, nulls)
    ensures Build(nn, nulls, []) ==
            Ok(Header(true, |nn|, |nulls|) + (Pack(Ids(nn) + Ids(nulls), IdWidth(true)) + Concat(nn)))
  {
    NoOffsets(Ids(nn) + Ids(nulls), |nn|, |nulls|, Concat(nn));
  }

  lemma NoOffsets(ids: seq<nat>, n: nat, m: nat, data: seq<byte>)
    ensures LargeRow(ids, n, m, [], data) == Header(true, n, m) + (Pack(ids, IdWidth(true)) + data)
  {
    assert Pack([], 4) == [];
  }

  /** How a forgotten row is parsed: its offsets are taken from the beginning of its data. */
  lemma ParseForgotten(nn: seq<Col>, nulls: seq<Col>)
    requires Layout(nn, nulls) && NotNull(nn) && Forgotten(nn, nulls)
    ensures Build(nn, nulls, []).Ok?
    ensures var r := SetRowData(Build(nn, nulls, []).value);
            r == Panic || (r.Ok? && HasIds(r.value, nn, nulls) && |r.value.data| < MAX_UINT16)
  {
    IdsFit(nn, nulls);
    assert |nn| > 0;
    ForgottenBytes(nn, nulls);
    ParseIds(true, Ids(nn) + Ids(nulls), |nn|, |nulls|, Concat(nn));
  }

  /** A column that reads back as stored was given at least its own number of bytes. */
  lemma ReadBackColumn(nn: seq<Col>, nulls: seq<Col>, r: Row, k: nat)
    requires Layout(nn, nulls) && NotNull(nn) && r.Wf() && HasIds(r, nn, nulls) && k < |nn|
    requires ReadColumn(r, Ask(nn[k])) == Ok(CellOf(nn[k].value))
    ensures Roomy(nn, r, k)
  {
    SearchNotNull(nn, nulls, r, nn[k].id);
    var s := Search(r.ids, 0, r.n, nn[k].id);
    assert s.value.At? && s.value.index == k;
    CellShortest(nn[k].value, GetData(r, k).value);
  }

  lemma EndGrows(nn: seq<Col>, k: nat)
    requires NotNull(nn) && k < |nn|
    ensures End(nn, k + 1) == End(nn, k) + |EncodeDatum(nn[k].value)| && End(nn, 0) == 0
  {
    EndStep(nn, k);
    assert nn[..0] == [];
  }

  /** The slice a row gives column `k` has room for its value. */
  ghost predicate Roomy(nn: seq<Col>, r: Row, k: nat)
    requires NotNull(nn) && k < |nn| == |r.offsets|
  {
    GetData(r, k).Ok? && |GetData(r, k).value| >= |EncodeDatum(nn[k].value)|
  }

  /** If every column has room, they end no earlier than they should. */
  lemma {:induction false} RoomAddsUp(nn: seq<Col>, r: Row, k: nat)
    requires NotNull(nn) && k < |nn| == |r.offsets|
    requires forall i {:trigger Roomy(nn, r, i)} :: 0 <= i < |nn| ==> Roomy(nn, r, i)
    ensures End(nn, k + 1) <= r.offsets[k] <= |r.data|
  {
    assert Roomy(nn, r, k);
    EndGrows(nn, k);
    if k > 0 {
      RoomAddsUp(nn, r, k - 1);
    }
  }

  /** No forgotten row reads back: some column is lost or wrong, whatever the data. */
  lemma ForgottenFails(nn: seq<Col>, nulls: seq<Col>)
    requires Layout(nn, nulls) && NotNull(nn) && Forgotten(nn, nulls)
    ensures Build(nn, nulls, []).Ok?
    ensures !ValuesSurvive(nn, Build(nn, nulls, []).value)
  {
    ParseForgotten(nn, nulls);
    var b := Build(nn, nulls, []).value;
    if SetRowData(b) == Panic {
      assert ReadRow(b, Ask(nn[0])) == Panic;
    } else {
      NoRoom(nn, nulls, b);
    }
  }

  /** A row whose data, or whose last offset, falls short of its columns loses a value. */
  lemma NoRoom(nn: seq<Col>, nulls: seq<Col>, b: seq<byte>)
    requires Layout(nn, nulls) && NotNull(nn) && nn != []
    requires SetRowData(b).Ok? && HasIds(SetRowData(b).value, nn, nulls)
    requires var r := SetRowData(b).value; |r.data| < |Concat(nn)| || r.offsets[|nn| - 1] < |Concat(nn)|
    ensures !ValuesSurvive(nn, b)
  {
    var r := SetRowData(b).value;
    assert nn[..|nn|] == nn;
    if ValuesSurvive(nn, b) {
      forall i | 0 <= i < |nn| ensures Roomy(nn, r, i) {
        assert ReadRow(b, Ask(nn[i])) == Ok(CellOf(nn[i].value));
        ReadBackColumn(nn, nulls, r, i);
      }
      RoomAddsUp(nn, r, |nn| - 1);
    }
  }

  lemma ParseHuge(nn: seq<Col>, nulls: seq<Col>)
    requires Layout(nn, nulls) && NotNull(nn) && |Concat(nn)| >= TWO_32
    ensures Build(nn, nulls, []).Ok?
    ensures SetRowData(Build(nn, nulls, []).value)
            == Ok(Row(true, |nn|, |nulls|, Ids(nn) + Ids(nulls), Mod(Offsets(nn), TWO_32), Concat(nn)))
  {
    IdsFit(nn, nulls);
    ParseRow(true, Ids(nn) + Ids(nulls), |nn|, |nulls|, Mod(Offsets(nn), TWO_32), Concat(nn));
  }

  /** No row of 2^32 bytes or more reads back: its last offset has wrapped. */
  lemma HugeFails(nn: seq<Col>, nulls: seq<Col>)
    requires Layout(nn, nulls) && NotNull(nn) && |Concat(nn)| >= TWO_32
    ensures Build(nn, nulls, []).Ok?
    ensures !ValuesSurvive(nn, Build(nn, nulls, []).value)
  {
    ParseHuge(nn, nulls);
    NoRoom(nn, nulls, Build(nn, nulls, []).value);
  }

  /** There are such rows: one column of so many bytes. */
  lemma HugeRow(b: seq<byte>)
    requires |b| >= TWO_32
    ensures var nn := [Col(1, Raw(b))];
            Layout(nn, []) && NotNull(nn) && |Concat(nn)| >= TWO_32
  {
    var nn := [Col(1, Raw(b))];
    assert nn[..0] == [];
    assert Concat(nn) == b;
  }

  /** There are such rows: one column of 65535 bytes. */
  lemma ForgottenRow(b: seq<byte>)
    requires |b| == MAX_UINT16
    ensures var nn := [Col(1, Raw(b))];
            Layout(nn, []) && NotNull(nn) && Forgotten(nn, [])
  {
    var nn := [Col(1, Raw(b))];
    assert nn[..0] == [];
    assert Concat(nn) == b;
  }

  /** The exact condition: the values of a row survive in a fresh encoder if and only if its data is
      under 2^32 bytes, and it is not the case that all ids fit a byte and the data is exactly 65535
      bytes. */
  lemma SurvivesIff(nn: seq<Col>, nulls: seq<Col>)
    requires Layout(nn, nulls) && NotNull(nn)
    ensures Build(nn, nulls, []).Ok?
    ensures ValuesSurvive(nn, Build(nn, nulls, []).value) <==> !Forgotten(nn, nulls) && |Concat(nn)| < TWO_32
  {
    if |Concat(nn)| >= TWO_32 {
      HugeFails(nn, nulls);
    } else     if Forgotten(nn, nulls) {
      ForgottenFails(nn, nulls);
    } else {
      forall i | 0 <= i < |nn|
        ensures ReadRow(Build(nn, nulls, []).value, Ask(nn[i])) == Ok(CellOf(nn[i].value))
      {
        RoundTrip(nn, nulls, Ask(nn[i]));
        ExpectedValue(nn, nulls, i);
      }
      ParseBuilt(nn, nulls);
    }
  }
}
