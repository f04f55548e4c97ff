/** The bytes of a row and how they are read (kv/coprocessor/rowcodec): what `build` produces from
    columns already partitioned and sorted, and what `Decode` makes of any bytes. */
module RowLayout {
  import opened Bytes
  import opened RowFormat

  datatype Col = Col(id: nat, value: Datum)

  const MAX_UINT16: nat := 0xFFFF
  const TWO_32: nat := 0x1_0000_0000

  // ---- what a row is built from ------------------------------------------------------------

  predicate Ascending(cols: seq<Col>) {
    forall i, j :: 0 <= i < j < |cols| ==> cols[i].id < cols[j].id
  }

  /** Not-null and null columns of a row, each by ascending id, all ids distinct and within uint32. */
  predicate Layout(nn: seq<Col>, nulls: seq<Col>) {
    && Ascending(nn) && Ascending(nulls)
    && (forall i :: 0 <= i < |nn| ==> !nn[i].value.Null? && nn[i].id < TWO_32)
    && (forall i :: 0 <= i < |nulls| ==> nulls[i].value.Null? && nulls[i].id < TWO_32)
    && (forall i, j :: 0 <= i < |nn| && 0 <= j < |nulls| ==> nn[i].id != nulls[j].id)
    && |nn| + |nulls| <= MAX_UINT16
  }

  function Ids(cols: seq<Col>): (r: seq<nat>)
    ensures |r| == |cols| && forall i :: 0 <= i < |r| ==> r[i] == cols[i].id
  {
    seq(|cols|, i requires 0 <= i < |cols| => cols[i].id)
  }

  predicate NotNull(cols: seq<Col>) {
    forall i :: 0 <= i < |cols| ==> !cols[i].value.Null?
  }

  /** The data of the not-null columns, one after the other. */
  function Concat(nn: seq<Col>): seq<byte>
    requires NotNull(nn)
  {
    if nn == [] then [] else Concat(nn[..|nn| - 1]) + EncodeDatum(nn[|nn| - 1].value)
  }

  /** Where column `i` ends in the data. */
  function End(nn: seq<Col>, i: nat): nat
    requires NotNull(nn) && i <= |nn|
  {
    |Concat(nn[..i])|
  }

  lemma EndStep(nn: seq<Col>, i: nat)
    requires NotNull(nn) && i < |nn|
    ensures Concat(nn[..i + 1]) == Concat(nn[..i]) + EncodeDatum(nn[i].value)
    ensures End(nn, i + 1) == End(nn, i) + |EncodeDatum(nn[i].value)|
  {
    assert nn[..i + 1][..i] == nn[..i];
  }

  lemma {:induction false} EndsAscend(nn: seq<Col>, i: nat, j: nat)
    requires NotNull(nn) && i <= j <= |nn|
    ensures End(nn, i) <= End(nn, j) <= |Concat(nn)|
    ensures Concat(nn[..i]) <= Concat(nn)
    decreases |nn|
  {
    if nn == [] {
    } else if j == |nn| {
      assert nn[..j] == nn;
      if i < j {
        var front := nn[..|nn| - 1];
        EndsAscend(front, i, |front|);
        assert front[..i] == nn[..i] && front[..|front|] == front;
      }
    } else {
      var front := nn[..|nn| - 1];
      EndsAscend(front, i, j);
      assert front[..i] == nn[..i] && front[..j] == nn[..j];
    }
  }

  function Offsets(nn: seq<Col>): (r: seq<nat>)
    requires NotNull(nn)
    ensures |r| == |nn| && forall i :: 0 <= i < |r| ==> r[i] == End(nn, i + 1)
  {
    seq(|nn|, i requires 0 <= i < |nn| => End(nn, i + 1))
  }

  /** An id above 255 makes the row large from the start. */
  predicate WideIds(nn: seq<Col>, nulls: seq<Col>) {
    (exists i :: 0 <= i < |nn| && nn[i].id > 255) || (exists i :: 0 <= i < |nulls| && nulls[i].id > 255)
  }

  function Header(large: bool, n: nat, m: nat): seq<byte> {
    [CODEC_VER, if large then 1 else 0] + LittleEndian(n, 2) + LittleEndian(m, 2)
  }

  function LargeRow(ids: seq<nat>, n: nat, m: nat, offsets: seq<nat>, data: seq<byte>): seq<byte> {
    Header(true, n, m) + Pack(ids, 4) + Pack(offsets, 4) + data
  }

  function SmallRow(ids: seq<nat>, n: nat, m: nat, offsets: seq<nat>, data: seq<byte>): seq<byte> {
    Header(false, n, m) + Pack(ids, 1) + Pack(offsets, 2) + data
  }

  function Mod(xs: seq<nat>, m: nat): (r: seq<nat>)
    requires m > 0
    ensures |r| == |xs| && forall i :: 0 <= i < |r| ==> r[i] == xs[i] % m
  {
    seq(|xs|, i requires 0 <= i < |xs| => xs[i] % m)
  }

  /** `offsets` with its beginning replaced by `stale`. */
  function Overwrite(offsets: seq<nat>, stale: seq<nat>): seq<nat>
    requires |stale| <= |offsets|
  {
    stale + offsets[|stale|..]
  }

  /** The bytes `build` returns. `stale` is the list of 32-bit offsets left in the encoder by an
      earlier large row, empty in a fresh encoder. A row that is still small when all columns are
      in, but whose data is exactly 65535 bytes, becomes large without its offsets being
      converted; any other small row has its offsets overwritten by the stale ones. */
  function Build(nn: seq<Col>, nulls: seq<Col>, stale: seq<nat>): Outcome<seq<byte>>
    requires NotNull(nn)
  {
    var ids, n, m, data := Ids(nn) + Ids(nulls), |nn|, |nulls|, Concat(nn);
    if WideIds(nn, nulls) || |data| > MAX_UINT16 then
      Ok(LargeRow(ids, n, m, Mod(Offsets(nn), TWO_32), data))
    else if |data| == MAX_UINT16 then
      Ok(LargeRow(ids, n, m, stale, data))
    else if |stale| > n then Panic
    else Ok(SmallRow(ids, n, m, Overwrite(Offsets(nn), Mod(stale, 0x1_0000)), data))
  }

  /** The 32-bit offsets in an encoder after a row: those of the row if it had them, else as before. */
  function LeftBy(nn: seq<Col>, nulls: seq<Col>, stale: seq<nat>): seq<nat>
    requires NotNull(nn)
  {
    if WideIds(nn, nulls) || |Concat(nn)| > MAX_UINT16 then Mod(Offsets(nn), TWO_32) else stale
  }

  // ---- reading a row -----------------------------------------------------------------------

  datatype Row = Row(large: bool, n: nat, m: nat, ids: seq<nat>, offsets: seq<nat>, data: seq<byte>)
  {
    /** What setRowData leaves behind: an id for every column, counted in 16 bits, and an offset for
        every not-null one. */
    predicate Wf() {
      n < 0x1_0000 && m < 0x1_0000 && |ids| == (n + m) % 0x1_0000 && |offsets| == n
    }
  }

  function SetRowData(b: seq<byte>): (r: Outcome<Row>)
    ensures r.Ok? ==> r.value.Wf()
  {
    if |b| == 0 then Panic
    else if b[0] != CODEC_VER then InvalidCodecVer
    else if |b| < 6 then Panic
    else
      ParseBody(b[1] % 2 == 1, Uint16(b[2..4]), Uint16(b[4..6]), b[6..])
  }

  function IdWidth(large: bool): nat {
    if large then 4 else 1
  }

  function OffsetWidth(large: bool): nat {
    if large then 4 else 2
  }

  /** What follows the header: ids, offsets, data. */
  function ParseBody(large: bool, n: nat, m: nat, body: seq<byte>): (r: Outcome<Row>)
    requires n < 0x1_0000 && m < 0x1_0000
    ensures r.Ok? ==> r.value.Wf()
  {
    var c := (n + m) % 0x1_0000;
    var idsLen := c * IdWidth(large);
    if idsLen > |body| then Panic
    else ParseOffsets(large, n, m, Unpack(body[..idsLen], c, IdWidth(large)), body[idsLen..])
  }

  function ParseOffsets(large: bool, n: nat, m: nat, ids: seq<nat>, rest: seq<byte>): (r: Outcome<Row>)
    ensures r.Ok? ==> r.value.ids == ids && r.value.n == n && r.value.m == m && |r.value.offsets| == n
  {
    var offsetsLen := n * OffsetWidth(large);
    if offsetsLen > |rest| then Panic
    else Ok(Row(large, n, m, ids, Unpack(rest[..offsetsLen], n, OffsetWidth(large)), rest[offsetsLen..]))
  }

  function Uint16(b: seq<byte>): (r: nat)
    requires |b| == 2
    ensures r < 0x1_0000
  {
    Powers();
    LittleEndianBound(b);
    LittleEndianValue(b)
  }

  function GetData(r: Row, i: nat): Outcome<seq<byte>>
    requires i < |r.offsets|
  {
    var start := if i > 0 then r.offsets[i - 1] else 0;
    var end := r.offsets[i];
    if start <= end <= |r.data| then Ok(r.data[start..end]) else Panic
  }

  datatype Found = At(index: nat) | Missing

  /** Binary search in ids[i..j]; an index past the id list panics. */
  function Search(ids: seq<nat>, i: nat, j: nat, id: int): (r: Outcome<Found>)
    requires i <= j
    ensures r.Ok? && r.value.At? ==> i <= r.value.index < j
    decreases j - i
  {
    if i == j then Ok(Missing)
    else
      var h := (i + j) / 2;
      if h >= |ids| then Panic
      else if ids[h] < id then Search(ids, h + 1, j, id)
      else if ids[h] > id then Search(ids, i, h, id)
      else Ok(At(h))
  }

  /** A requested column; `default` is what stands for it when the row does not have it. */
  datatype Request = Request(id: int, tp: ColType, default: Default)

  datatype Default = NoDefault | Value(data: seq<byte>)

  function ReadDefault(q: Request): Outcome<Cell> {
    match q.default
    case NoDefault => Ok(NullCell)
    case Value(d) => DecodeCell(q.tp, d)
  }

  /** isNull: found among the null columns, or without a default. */
  function IsNull(r: Row, id: int, default: Default): Outcome<bool>
    requires r.Wf()
  {
    var end := (r.n + r.m) % 0x1_0000;
    if end < r.n then Ok(default.NoDefault?)
    else match Search(r.ids, r.n, end, id)
      case Ok(At(_)) => Ok(true)
      case Ok(Missing) => Ok(default.NoDefault?)
      case _ => Panic
  }

  /** ColumnIsNull: not among the not-null columns, and null or without a default. */
  function ColumnNull(r: Row, id: int, default: Default): Outcome<bool>
    requires r.Wf()
  {
    match Search(r.ids, 0, r.n, id)
    case Ok(At(_)) => Ok(false)
    case Ok(Missing) => IsNull(r, id, default)
    case _ => Panic
  }

  function ReadMissing(r: Row, q: Request): Outcome<Cell>
    requires r.Wf()
  {
    match IsNull(r, q.id, q.default)
    case Ok(true) => Ok(NullCell)
    case Ok(false) => ReadDefault(q)
    case _ => Panic
  }

  function ReadColumn(r: Row, q: Request): Outcome<Cell>
    requires r.Wf()
  {
    match Search(r.ids, 0, r.n, q.id)
    case Ok(At(h)) =>
      (match GetData(r, h)
       case Ok(data) => DecodeCell(q.tp, data)
       case _ => Panic)
    case Ok(Missing) => ReadMissing(r, q)
    case _ => Panic
  }

  function ReadRow(b: seq<byte>, q: Request): Outcome<Cell> {
    match SetRowData(b)
    case Ok(r) => ReadColumn(r, q)
    case InvalidCodecVer => InvalidCodecVer
    case Panic => Panic
  }

  // ---- the search --------------------------------------------------------------------------

  predicate AscendingIds(ids: seq<nat>, i: nat, j: nat) {
    i <= j <= |ids| && forall a, b :: i <= a < b < j ==> ids[a] < ids[b]
  }

  /** Over ascending ids the search finds the id exactly when it is there. */
  lemma {:induction false} SearchFinds(ids: seq<nat>, i: nat, j: nat, id: int)
    requires AscendingIds(ids, i, j)
    ensures Search(ids, i, j, id).Ok?
    ensures Search(ids, i, j, id).value.At? ==> ids[Search(ids, i, j, id).value.index] == id
    ensures Search(ids, i, j, id).value.Missing? ==> forall k :: i <= k < j ==> ids[k] != id
    decreases j - i
  {
    if i < j {
      var h := (i + j) / 2;
      if ids[h] < id {
        SearchFinds(ids, h + 1, j, id);
      } else if ids[h] > id {
        SearchFinds(ids, i, h, id);
      }
    }
  }
}
