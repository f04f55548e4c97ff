/** The row decoder as the source runs it (kv/coprocessor/rowcodec/decoder.go, common.go), and the
    round trip from columns to cells. */
module RowDecoder {
  import opened Bytes
  import opened RowFormat
  import opened RowLayout
  import opened RowRoundTrip
  import opened RowEncoder

  lemma TailSlice(b: seq<byte>, start: nat, len: nat)
    requires start + len <= |b|
    ensures b[start..start + len] == b[start..][..len] && b[start + len..] == b[start..][len..]
  {
  }

  /** Parsing after the header, in terms of a cursor into the whole row. */
  lemma ParseBodyAt(large: bool, n: nat, m: nat, b: seq<byte>, count: nat, len: nat)
    requires |b| >= 6 && n < 0x1_0000 && m < 0x1_0000
    requires count == (n + m) % 0x1_0000 && len == count * IdWidth(large)
    ensures ParseBody(large, n, m, b[6..]) ==
            if 6 + len > |b| then Panic
            else ParseOffsets(large, n, m, Unpack(b[6..6 + len], count, IdWidth(large)), b[6 + len..])
  {
    if 6 + len <= |b| {
      TailSlice(b, 6, len);
    }
  }

  class Decoder {
    var large: bool
    var numNotNullCols: nat
    var numNullCols: nat
    var colIDs: seq<nat>
    var offsets: seq<nat>
    var data: seq<byte>

    constructor ()
    {
      large, numNotNullCols, numNullCols, colIDs, offsets, data := false, 0, 0, [], [], [];
    }

    ghost function Current(): Row
      reads this
    {
      Row(large, numNotNullCols, numNullCols, colIDs, offsets, data)
    }

    /** Take a row apart with a moving cursor. */
    method SetRow(rowData: seq<byte>) returns (r: Outcome<()>)
      modifies this
      ensures r.Ok? <==> SetRowData(rowData).Ok?
      ensures r.Ok? ==> Current() == SetRowData(rowData).value
      ensures r.InvalidCodecVer? <==> SetRowData(rowData).InvalidCodecVer?
    {
      if |rowData| == 0 {
        return Panic;
      }
      if rowData[0] != CODEC_VER {
        return InvalidCodecVer;
      }
      if |rowData| < 6 {
        return Panic;
      }
      large := rowData[1] % 2 == 1;
      numNotNullCols := Uint16(rowData[2..4]);
      numNullCols := Uint16(rowData[4..6]);
      r := SetIds(rowData);
    }

    /** The column ids, after the header. */
    method SetIds(rowData: seq<byte>) returns (r: Outcome<()>)
      requires |rowData| >= 6 && numNotNullCols < 0x1_0000 && numNullCols < 0x1_0000
      modifies `colIDs, `offsets, `data
      ensures var p := ParseBody(large, numNotNullCols, numNullCols, rowData[6..]);
              !r.InvalidCodecVer? && (r.Ok? <==> p.Ok?) && (r.Ok? ==> Current() == p.value)
    {
      var cursor := 6;
      var count := (numNotNullCols + numNullCols) % 0x1_0000;
      var colIDsLen := count * IdWidth(large);
      ParseBodyAt(large, numNotNullCols, numNullCols, rowData, count, colIDsLen);
      if cursor + colIDsLen > |rowData| {
        return Panic;
      }
      colIDs := Unpack(rowData[cursor..cursor + colIDsLen], count, IdWidth(large));
      cursor := cursor + colIDsLen;
      r := SetOffsets(rowData, cursor);
    }

    /** The offsets, then the data. */
    method SetOffsets(rowData: seq<byte>, start: nat) returns (r: Outcome<()>)
      requires start <= |rowData|
      modifies `offsets, `data
      ensures var p := ParseOffsets(large, numNotNullCols, numNullCols, colIDs, rowData[start..]);
              !r.InvalidCodecVer? && (r.Ok? <==> p.Ok?) && (r.Ok? ==> Current() == p.value)
    {
      var cursor := start;
      var offsetsLen := numNotNullCols * OffsetWidth(large);
      if cursor + offsetsLen > |rowData| {
        return Panic;
      }
      TailSlice(rowData, cursor, offsetsLen);
      offsets := Unpack(rowData[cursor..cursor + offsetsLen], numNotNullCols, OffsetWidth(large));
      cursor := cursor + offsetsLen;
      data := rowData[cursor..];
      return Ok(());
    }

    /** The binary search loop, over any stretch of the id list. */
    method Find(lo: nat, hi: nat, colID: int) returns (r: Outcome<Found>)
      requires lo <= hi
      ensures r == Search(colIDs, lo, hi, colID)
    {
      var i, j := lo, hi;
      while i < j
        invariant lo <= i <= j <= hi
        invariant Search(colIDs, i, j, colID) == Search(colIDs, lo, hi, colID)
        decreases j - i
      {
        var h := (i + j) / 2;
        if h >= |colIDs| {
          return Panic;
        }
        var v := colIDs[h];
        if v < colID {
          i := h + 1;
        } else if v > colID {
          j := h;
        } else {
          return Ok(At(h));
        }
      }
      return Ok(Missing);
    }

    method NullOrNot(colID: int, default: Default) returns (r: Outcome<bool>)
      requires Current().Wf()
      ensures r == IsNull(Current(), colID, default)
    {
      var lo, hi := numNotNullCols, (numNotNullCols + numNullCols) % 0x1_0000;
      if hi < lo {
        // the counts wrap in 16 bits, and the search range is empty
        return Ok(default.NoDefault?);
      }
      var f := Find(lo, hi, colID);
      match f
      case Ok(At(_)) => return Ok(true);
      case Ok(Missing) => return Ok(default.NoDefault?);
      case _ => return Panic;
    }

    /** One requested column. */
    method DecodeColumn(q: Request) returns (r: Outcome<Cell>)
      requires Current().Wf()
      ensures r == ReadColumn(Current(), q)
    {
      var f := Find(0, numNotNullCols, q.id);
      match f
      case Ok(At(h)) =>
        var start := if h > 0 then offsets[h - 1] else 0;
        var end := offsets[h];
        if !(start <= end <= |data|) {
          return Panic;
        }
        return DecodeCell(q.tp, data[start..end]);
      case Ok(Missing) =>
        var isNull := NullOrNot(q.id, q.default);
        match isNull {
          case Ok(yes) =>
            if yes {
              return Ok(NullCell);
            }
            return ReadDefault(q);
          case _ => return Panic;
        }
      case _ => return Panic;
    }

    /** Decode the requested columns; the handle column is not in the row. */
    method Decode(rowData: seq<byte>, handle: int64, handleColID: int, requests: seq<Request>)
      returns (r: Outcome<seq<Cell>>)
      modifies this
      ensures r.Ok? <==> SetRowData(rowData).Ok? &&
                         forall k :: 0 <= k < |requests| && requests[k].id != handleColID ==>
                                       ReadRow(rowData, requests[k]).Ok?
      ensures r.Ok? ==> |r.value| == |requests| && forall k :: 0 <= k < |requests| ==>
                          if requests[k].id == handleColID then r.value[k] == IntCell(handle)
                          else ReadRow(rowData, requests[k]) == Ok(r.value[k])
      ensures r.InvalidCodecVer? <==> SetRowData(rowData).InvalidCodecVer?
    {
      var set_ := SetRow(rowData);
      match set_
      case InvalidCodecVer => return InvalidCodecVer;
      case Panic => return Panic;
      case Ok(_) =>
        var cells: seq<Cell> := [];
        var i := 0;
        while i < |requests|
          modifies {}
          invariant 0 <= i <= |requests| && |cells| == i
          invariant forall k :: 0 <= k < i ==>
                      if requests[k].id == handleColID then cells[k] == IntCell(handle)
                      else ReadRow(rowData, requests[k]) == Ok(cells[k])
        {
          var q := requests[i];
          if q.id == handleColID {
            cells := cells + [IntCell(handle)];
          } else {
            var c := DecodeColumn(q);
            if !c.Ok? {
              assert ReadRow(rowData, requests[i]) == c;
              return Panic;
            }
            cells := cells + [c.value];
          }
          i := i + 1;
        }
        return Ok(cells);
    }

    method ColumnIsNull(rowData: seq<byte>, colID: int, default: Default) returns (r: Outcome<bool>)
      modifies this
      ensures match SetRowData(rowData)
              case Ok(row) => r == ColumnNull(row, colID, default)
              case InvalidCodecVer => r == InvalidCodecVer
              case Panic => r == Panic
    {
      var set_ := SetRow(rowData);
      match set_
      case InvalidCodecVer => return InvalidCodecVer;
      case Panic => return Panic;
      case Ok(_) =>
        var f := Find(0, numNotNullCols, colID);
        match f {
          case Ok(At(_)) => return Ok(false);
          case Ok(Missing) =>
            r := NullOrNot(colID, default);
          case _ => return Panic;
        }
    }
  }

  // ---- from columns to cells ---------------------------------------------------------------

  /** What a row should give, said of the columns it was built from. */
  lemma ExpectedOfColumn(cols: seq<Col>, nn: seq<Col>, nulls: seq<Col>, q: Request, c: Col)
    requires Encodable(cols) && Sorts(cols, nn, nulls) && NotNull(nn) && c in cols && c.id == q.id
    ensures Expected(nn, nulls, q) == if c.value.Null? then Ok(NullCell) else DecodeCell(q.tp, EncodeDatum(c.value))
  {
    SortsLayout(cols, nn, nulls);
    PartitionCounts(cols);
    var all := nn + nulls;
    assert multiset(all) == multiset(cols);
    var i :| 0 <= i < |cols| && cols[i] == c;
    var j := InMultiset(cols, all, i);
    if j < |nn| {
      assert nn[j] == c;
      ExpectedAt(nn, nulls, q, j);
    } else {
      assert nulls[j - |nn|] == c;
    }
  }

  lemma ExpectedOfAbsent(cols: seq<Col>, nn: seq<Col>, nulls: seq<Col>, q: Request)
    requires Sorts(cols, nn, nulls) && NotNull(nn) && forall c :: c in cols ==> c.id != q.id
    ensures Expected(nn, nulls, q) == if q.default.NoDefault? then Ok(NullCell) else DecodeCell(q.tp, q.default.data)
  {
    PartitionCounts(cols);
    forall i | 0 <= i < |nn| ensures nn[i].id != q.id {
      assert nn[i] in multiset(cols);
    }
    forall i | 0 <= i < |nulls| ensures nulls[i].id != q.id {
      assert nulls[i] in multiset(cols);
    }
  }

  /** What a request should give, said of the columns in the order they came: the value as asked
      for, null for a null, the default for an id that is not there. */
  ghost function Asked(cols: seq<Col>, q: Request): Outcome<Cell> {
    if exists c :: c in cols && c.id == q.id then
      var c :| c in cols && c.id == q.id;
      if c.value.Null? then Ok(NullCell) else DecodeCell(q.tp, EncodeDatum(c.value))
    else if q.default.NoDefault? then Ok(NullCell)
    else DecodeCell(q.tp, q.default.data)
  }

  /** An id that is not among the columns reads as its default does: null if and only if there is
      none, else as a column with those bytes would, and in its own type the default's value. */
  lemma AbsentReads(cols: seq<Col>, nn: seq<Col>, nulls: seq<Col>, q: Request, d: Datum)
    requires Encodable(cols) && Sorts(cols, nn, nulls) && NotNull(nn)
    requires |Concat(nn)| < TWO_32 && !Forgotten(nn, nulls) && forall c :: c in cols ==> c.id != q.id
    ensures Build(nn, nulls, []).Ok?
    ensures ReadRow(Build(nn, nulls, []).value, q) == Ok(NullCell) <==> q.default.NoDefault?
    ensures !d.Null? && q.default == Value(EncodeDatum(d)) ==>
              ReadRow(Build(nn, nulls, []).value, q) == Asked([Col(0, d)], Request(0, q.tp, NoDefault))
    ensures !d.Null? && q.default == Value(EncodeDatum(d)) && q.tp == TypeOf(d) ==>
              ReadRow(Build(nn, nulls, []).value, q) == Ok(CellOf(d))
  {
    RowComesBack(cols, nn, nulls, q);
    if !d.Null? {
      CellRoundTrip(d);
      assert Col(0, d) in [Col(0, d)];
    }
  }

  /** Whatever the columns, a row built from them by a fresh encoder reads back as the columns. The
      exceptions are a row of narrow ids with exactly 65535 bytes of data, and one of 2^32 or more. */
  lemma RowComesBack(cols: seq<Col>, nn: seq<Col>, nulls: seq<Col>, q: Request)
    requires Encodable(cols) && Sorts(cols, nn, nulls) && NotNull(nn)
    requires |Concat(nn)| < TWO_32 && !Forgotten(nn, nulls)
    ensures Build(nn, nulls, []).Ok? && SetRowData(Build(nn, nulls, []).value).Ok?
    ensures ReadRow(Build(nn, nulls, []).value, q) == Asked(cols, q)
  {
    SortsLayout(cols, nn, nulls);
    RoundTrip(nn, nulls, q);
    ParseBuilt(nn, nulls);
    if c :| c in cols && c.id == q.id && Asked(cols, q) == if c.value.Null? then Ok(NullCell) else DecodeCell(q.tp, EncodeDatum(c.value)) {
      ExpectedOfColumn(cols, nn, nulls, q, c);
    } else {
      ExpectedOfAbsent(cols, nn, nulls, q);
    }
  }

  /** Columns through a new encoder and a decoder: the cells asked for, the handle where it is asked
      for, an error exactly if some request cannot be met. */
  method StoreThenLoad(colIDs: seq<nat>, values: seq<Datum>, handle: int64, handleColID: int, requests: seq<Request>)
    returns (r: Outcome<seq<Cell>>, ghost nn: seq<Col>, ghost nulls: seq<Col>)
    requires |colIDs| == |values| && Encodable(Zip(colIDs, values))
    ensures Sorts(Zip(colIDs, values), nn, nulls) && NotNull(nn)
    ensures |Concat(nn)| < TWO_32 && !Forgotten(nn, nulls) ==> Delivers(Zip(colIDs, values), handle, handleColID, requests, r)
  {
    var encoder := new Encoder();
    var row;
    row, nn, nulls := encoder.Encode(colIDs, values);
    if !row.Ok? {
      return Panic, nn, nulls;
    }
    var decoder := new Decoder();
    r := decoder.Decode(row.value, handle, handleColID, requests);
    if |Concat(nn)| < TWO_32 && !Forgotten(nn, nulls) {
      RowsComeBack(Zip(colIDs, values), nn, nulls, requests);
    }
  }

  ghost predicate Delivers(cols: seq<Col>, handle: int64, handleColID: int, requests: seq<Request>, r: Outcome<seq<Cell>>) {
    && (r.Ok? <==> forall k :: 0 <= k < |requests| && requests[k].id != handleColID ==> Asked(cols, requests[k]).Ok?)
    && (r.Ok? ==>
          && |r.value| == |requests|
          && forall k :: 0 <= k < |requests| ==>
               if requests[k].id == handleColID then r.value[k] == IntCell(handle)
               else Asked(cols, requests[k]) == Ok(r.value[k]))
  }

  lemma RowsComeBack(cols: seq<Col>, nn: seq<Col>, nulls: seq<Col>, requests: seq<Request>)
    requires Encodable(cols) && Sorts(cols, nn, nulls) && NotNull(nn)
    requires |Concat(nn)| < TWO_32 && !Forgotten(nn, nulls)
    ensures Build(nn, nulls, []).Ok? && SetRowData(Build(nn, nulls, []).value).Ok?
    ensures forall k :: 0 <= k < |requests| ==>
              ReadRow(Build(nn, nulls, []).value, requests[k]) == Asked(cols, requests[k])
  {
    RowComesBack(cols, nn, nulls, Request(0, BytesType, NoDefault));
    forall k | 0 <= k < |requests|
      ensures ReadRow(Build(nn, nulls, []).value, requests[k]) == Asked(cols, requests[k])
    {
      RowComesBack(cols, nn, nulls, requests[k]);
    }
  }
}
