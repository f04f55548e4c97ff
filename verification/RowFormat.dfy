/** Values and byte layout of a row (kv/coprocessor/rowcodec/common.go). Slices of a row are taken
    to have no capacity beyond their length, so reading past the end panics. */
module RowFormat {
  import opened Bytes

  type int64 = i: int | -0x8000_0000_0000_0000 <= i < 0x8000_0000_0000_0000

  datatype Datum = Null | Int(i: int64) | Uint(u: uint64) | Raw(b: seq<byte>)

  /** How a requested column is to be read. */
  datatype ColType = IntType | UintType | BytesType

  /** What a decoder appends to a chunk. */
  datatype Cell = NullCell | IntCell(i: int) | UintCell(u: nat) | BytesCell(b: seq<byte>)

  datatype Outcome<+T> = Ok(value: T) | InvalidCodecVer | Panic

  const CODEC_VER: byte := 128

  // ---- integers of the shortest width ------------------------------------------------------

  function IntWidth(v: int64): nat {
    if -0x80 <= v < 0x80 then 1
    else if -0x8000 <= v < 0x8000 then 2
    else if -0x8000_0000 <= v < 0x8000_0000 then 4
    else 8
  }

  function UintWidth(v: uint64): nat {
    if v < 0x100 then 1 else if v < 0x1_0000 then 2 else if v < 0x1_0000_0000 then 4 else 8
  }

  lemma Powers()
    ensures Pow256(1) == 0x100 && Pow256(2) == 0x1_0000 && Pow256(4) == 0x1_0000_0000 && Pow256(8) == TWO_64
  {
    assert Pow256(0) == 1;
    assert Pow256(3) == 0x100_0000;
    assert Pow256(5) == 0x100_0000_0000;
    assert Pow256(6) == 0x1_0000_0000_0000;
    assert Pow256(7) == 0x100_0000_0000_0000;
  }

  /** Two's complement in `width` bytes, and back. */
  function Wrap(v: int64, width: nat): nat
    requires width == IntWidth(v)
  {
    Powers();
    if v < 0 then v + Pow256(width) else v
  }

  function Signed(n: nat, width: nat): int {
    if n >= Pow256(width) / 2 then n - Pow256(width) else n
  }

  function EncodeInt(v: int64): seq<byte> {
    LittleEndian(Wrap(v, IntWidth(v)), IntWidth(v))
  }

  function EncodeUint(v: uint64): seq<byte> {
    LittleEndian(v, UintWidth(v))
  }

  function DecodeInt(val: seq<byte>): Outcome<int> {
    if |val| == 1 || |val| == 2 || |val| == 4 then Ok(Signed(LittleEndianValue(val), |val|))
    else if |val| < 8 then Panic
    else Ok(Signed(LittleEndianValue(val[..8]), 8))
  }

  function DecodeUint(val: seq<byte>): Outcome<nat> {
    if |val| == 1 || |val| == 2 || |val| == 4 then Ok(LittleEndianValue(val))
    else if |val| < 8 then Panic
    else Ok(LittleEndianValue(val[..8]))
  }

  // ---- cells -------------------------------------------------------------------------------

  function EncodeDatum(d: Datum): seq<byte>
    requires !d.Null?
  {
    match d
    case Int(i) => EncodeInt(i)
    case Uint(u) => EncodeUint(u)
    case Raw(b) => b
  }

  function DecodeCell(tp: ColType, data: seq<byte>): Outcome<Cell> {
    match tp
    case IntType =>
      (match DecodeInt(data)
       case Ok(i) => Ok(IntCell(i))
       case _ => Panic)
    case UintType =>
      (match DecodeUint(data)
       case Ok(u) => Ok(UintCell(u))
       case _ => Panic)
    case BytesType => Ok(BytesCell(data))
  }

  function TypeOf(d: Datum): ColType
    requires !d.Null?
  {
    match d
    case Int(_) => IntType
    case Uint(_) => UintType
    case Raw(_) => BytesType
  }

  function CellOf(d: Datum): Cell {
    match d
    case Null => NullCell
    case Int(i) => IntCell(i)
    case Uint(u) => UintCell(u)
    case Raw(b) => BytesCell(b)
  }

  /** A value read back in its own type is the value. */
  lemma CellRoundTrip(d: Datum)
    requires !d.Null?
    ensures DecodeCell(TypeOf(d), EncodeDatum(d)) == Ok(CellOf(d))
  {
    Powers();
    match d
    case Int(i) =>
      LittleEndianRoundTrip(Wrap(i, IntWidth(i)), IntWidth(i));
      assert IntWidth(i) == 8 ==> EncodeInt(i)[..8] == EncodeInt(i);
    case Uint(u) =>
      LittleEndianRoundTrip(u, UintWidth(u));
      assert UintWidth(u) == 8 ==> EncodeUint(u)[..8] == EncodeUint(u);
    case Raw(_) =>
  }

  /** The encoding is the shortest that reads back as the value. */
  lemma CellShortest(d: Datum, data: seq<byte>)
    requires !d.Null? && DecodeCell(TypeOf(d), data) == Ok(CellOf(d))
    ensures |data| >= |EncodeDatum(d)|
  {
    Powers();
    LittleEndianBound(data);
  }

  /** How many bytes the decoder looks at: 1, 2 or 4 if there are just so many, else the first 8. */
  function Used(len: nat): (r: nat)
    ensures r <= len
  {
    if len == 1 || len == 2 || len == 4 then len else if len >= 8 then 8 else 0
  }

  /** The bytes hold the value, written in as many bytes as the decoder looks at. */
  predicate Written(d: Datum, s: seq<byte>)
    requires !d.Null?
  {
    var w := Used(|s|);
    match d
    case Int(i) => w >= IntWidth(i) && s[..w] == LittleEndian(if i < 0 then Pow256(w) + i else i, w)
    case Uint(u) => w >= UintWidth(u) && s[..w] == LittleEndian(u, w)
    case Raw(b) => s == b
  }

  lemma UintWrittenIff(u: uint64, s: seq<byte>)
    ensures DecodeUint(s) == Ok(u) <==> Written(Uint(u), s)
  {
    Powers();
    var w := Used(|s|);
    LittleEndianBytes(s[..w]);
    LittleEndianBound(s[..w]);
    assert |s| == w ==> s[..w] == s;
    if w >= UintWidth(u) {
      LittleEndianRoundTrip(u, w);
    }
  }

  lemma IntWrittenIff(i: int64, s: seq<byte>)
    ensures DecodeInt(s) == Ok(i) <==> Written(Int(i), s)
  {
    Powers();
    var w := Used(|s|);
    LittleEndianBytes(s[..w]);
    LittleEndianBound(s[..w]);
    assert |s| == w ==> s[..w] == s;
    if w >= IntWidth(i) {
      LittleEndianRoundTrip(if i < 0 then Pow256(w) + i else i, w);
    }
  }

  /** Bytes read back as a value, in its own type, exactly if the value is written in them. */
  lemma WrittenIff(d: Datum, s: seq<byte>)
    requires !d.Null?
    ensures DecodeCell(TypeOf(d), s) == Ok(CellOf(d)) <==> Written(d, s)
  {
    match d
    case Int(i) => IntWrittenIff(i, s);
    case Uint(u) => UintWrittenIff(u, s);
    case Raw(_) =>
  }
}
