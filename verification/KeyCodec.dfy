/** Memcomparable encoding of byte strings and of timestamped keys (kv/util/codec/codec.go,
    kv/transaction/mvcc/transaction.go). */
module KeyCodec {
  import opened Bytes

  const GROUP: nat := 8
  const MARKER: byte := 0xFF
  const PAD: byte := 0

  datatype Error = InsufficientBytes | InvalidMarker | InvalidPadding

  datatype Decoded = Ok(left: seq<byte>, data: seq<byte>) | Err(error: Error)

  function Zeros(n: nat): (r: seq<byte>)
    ensures |r| == n && forall i :: 0 <= i < n ==> r[i] == PAD
  {
    seq(n, i => PAD)
  }

  // ---- what the encoding is ----------------------------------------------------------------

  /** The first group of `data`: eight bytes, padded with zeros if fewer are left. */
  function Group(data: seq<byte>): (g: seq<byte>)
    ensures |g| == GROUP
  {
    if |data| >= GROUP then data[..GROUP] else data + Zeros(GROUP - |data|)
  }

  function Marker(data: seq<byte>): byte {
    if |data| >= GROUP then MARKER else MARKER - (GROUP - |data|) as byte
  }

  function Encode(data: seq<byte>): seq<byte> {
    Group(data) + [Marker(data)] + if |data| >= GROUP then Encode(data[GROUP..]) else []
  }

  function Decode(b: seq<byte>): Decoded
    decreases |b|
  {
    if |b| < GROUP + 1 then Err(InsufficientBytes)
    else
      var padCount := (MARKER - b[GROUP]) as nat;
      if padCount > GROUP then Err(InvalidMarker)
      else if padCount == 0 then
        match Decode(b[GROUP + 1..])
        case Ok(left, data) => Ok(left, b[..GROUP] + data)
        case Err(e) => Err(e)
      else if forall i :: GROUP - padCount <= i < GROUP ==> b[i] == PAD then Ok(b[GROUP + 1..], b[..GROUP - padCount])
      else Err(InvalidPadding)
  }

  lemma {:induction false} EncodedLength(x: seq<byte>)
    ensures |Encode(x)| == 9 * (|x| / 8 + 1)
    decreases |x|
  {
    if |x| >= 8 {
      EncodedLength(x[8..]);
    }
  }

  /** The bytes of an encoding, place by place: nine for each eight bytes of data and nine more; in
      each nine the data padded with zeros, then 255, or 247 and the number of data bytes in the last. */
  lemma {:induction false} EncodedByte(x: seq<byte>, g: nat, j: nat)
    requires 8 * g <= |x| && j < 9
    ensures |Encode(x)| == 9 * (|x| / 8 + 1) && 9 * g + j < |Encode(x)|
    ensures Encode(x)[9 * g + j] == (if j < 8 then (if 8 * g + j < |x| then x[8 * g + j] else 0)
                                     else if 8 * g + 8 <= |x| then 255 else 247 + (|x| - 8 * g) as byte)
    decreases g
  {
    EncodedLength(x);
    if g > 0 {
      EncodedByte(x[8..], g - 1, j);
      assert Encode(x)[9 * g + j] == Encode(x[8..])[9 * (g - 1) + j];
    }
  }

  // ---- the loops of the source -------------------------------------------------------------

  /** What is still to be emitted when the loop is at `idx`. */
  function Remaining(data: seq<byte>, idx: nat): seq<byte> {
    if idx <= |data| then Encode(data[idx..]) else []
  }

  lemma RemainingStep(data: seq<byte>, idx: nat)
    requires idx <= |data|
    ensures forall done: seq<byte> ::
              done + Remaining(data, idx) ==
              (done + (Group(data[idx..]) + [Marker(data[idx..])])) + Remaining(data, idx + GROUP)
  {
    var here := data[idx..];
    if |here| >= GROUP {
      assert here[GROUP..] == data[idx + GROUP..];
    }
    var g, rest := Group(here) + [Marker(here)], Remaining(data, idx + GROUP);
    assert Remaining(data, idx) == g + rest;
    assert forall done: seq<byte> :: done + (g + rest) == (done + g) + rest;
  }

  method EncodeBytes(data: seq<byte>) returns (result: seq<byte>)
    ensures result == Encode(data)
  {
    var dLen := |data|;
    result := [];
    var idx := 0;
    assert data[0..] == data;
    ghost var goal := Encode(data);
    while idx <= dLen
      invariant 0 <= idx
      invariant result + Remaining(data, idx) == goal
    {
      RemainingStep(data, idx);
      result := AppendGroup(result, data, idx);
      idx := idx + GROUP;
    }
  }

  /** The body of the loop: one group and its marker. */
  method AppendGroup(result: seq<byte>, data: seq<byte>, idx: nat) returns (r: seq<byte>)
    requires idx <= |data|
    ensures r == result + (Group(data[idx..]) + [Marker(data[idx..])])
  {
    var remain := |data| - idx;
    var padCount := 0;
    if remain >= GROUP {
      r := result + data[idx..idx + GROUP];
      assert data[idx..idx + GROUP] == data[idx..][..GROUP];
    } else {
      padCount := GROUP - remain;
      r := result + data[idx..];
      r := r + Zeros(padCount);
    }
    var marker := MARKER - padCount as byte;
    r := r + [marker];
  }

  method DecodeBytes(input: seq<byte>) returns (r: Decoded)
    ensures r == Decode(input)
  {
    var b := input;
    var data: seq<byte> := [];
    while true
      invariant Decode(input) == After(data, Decode(b))
      decreases |b|
    {
      if |b| < GROUP + 1 {
        return Err(InsufficientBytes);
      }
      var group := b[..GROUP];
      var marker := b[GROUP];
      var padCount := (MARKER - marker) as nat;
      if padCount > GROUP {
        return Err(InvalidMarker);
      }
      var realGroupSize := GROUP - padCount;
      if padCount != 0 {
        var ok := CheckPadding(group, realGroupSize);
        DecodeLastGroup(b, data);
        if !ok {
          return Err(InvalidPadding);
        }
        return Ok(b[GROUP + 1..], data + group[..realGroupSize]);
      }
      DecodeFullGroup(b, data);
      data := data + group[..realGroupSize];
      b := b[GROUP + 1..];
    }
    assert false;
  }

  /** A result with `data` put before what was decoded. */
  function After(data: seq<byte>, r: Decoded): Decoded {
    match r
    case Ok(left, rest) => Ok(left, data + rest)
    case Err(e) => Err(e)
  }

  method CheckPadding(group: seq<byte>, from: nat) returns (ok: bool)
    requires |group| == GROUP && from <= GROUP
    ensures ok <==> forall k :: from <= k < GROUP ==> group[k] == PAD
  {
    for i := from to GROUP
      invariant forall k :: from <= k < i ==> group[k] == PAD
    {
      if group[i] != PAD {
        return false;
      }
    }
    return true;
  }

  lemma DecodeLastGroup(b: seq<byte>, data: seq<byte>)
    requires |b| >= GROUP + 1 && 0 < (MARKER - b[GROUP]) as nat <= GROUP
    ensures var n := GROUP - (MARKER - b[GROUP]) as nat;
            After(data, Decode(b)) == if forall k :: n <= k < GROUP ==> b[..GROUP][k] == PAD
                                      then Ok(b[GROUP + 1..], data + b[..GROUP][..n]) else Err(InvalidPadding)
  {
    var n := GROUP - (MARKER - b[GROUP]) as nat;
    assert b[..GROUP][..n] == b[..n];
    assert forall k :: 0 <= k < GROUP ==> b[..GROUP][k] == b[k];
  }

  lemma DecodeFullGroup(b: seq<byte>, data: seq<byte>)
    requires |b| >= GROUP + 1 && b[GROUP] == MARKER
    ensures After(data, Decode(b)) == After(data + b[..GROUP][..GROUP], Decode(b[GROUP + 1..]))
  {
    assert b[..GROUP][..GROUP] == b[..GROUP];
    if Decode(b[GROUP + 1..]).Ok? {
      var rest := Decode(b[GROUP + 1..]).data;
      assert data + (b[..GROUP] + rest) == data + b[..GROUP] + rest;
    }
  }

  // ---- what decoding does with any bytes ---------------------------------------------------

  /** The first `k` groups of nine bytes end in 255, and what follows them is not such a group. */
  ghost predicate FullGroups(b: seq<byte>, k: nat) {
    && 9 * k <= |b| && (forall j :: 0 <= j < k ==> b[9 * j + 8] == 255)
    && (|b| - 9 * k >= 9 ==> b[9 * k + 8] != 255)
  }

  /** After the full groups: too few bytes, a marker below 247, a padding byte that is not zero, or
      the end of the string and what is left. */
  lemma {:induction false} DecodeIs(b: seq<byte>, k: nat)
    requires FullGroups(b, k)
    ensures var t := b[9 * k..];
            if |t| < 9 then Decode(b) == Err(InsufficientBytes)
            else if t[8] < 247 then Decode(b) == Err(InvalidMarker)
            else if exists i :: (t[8] - 247) as nat <= i < 8 && t[i] != 0 then Decode(b) == Err(InvalidPadding)
            else Decode(b).Ok? && Decode(b).left == t[9..] && |Decode(b).data| == 8 * k + (t[8] - 247) as nat
  {
    if k > 0 {
      var rest := b[9..];
      assert b[8] == b[9 * 0 + 8] == 255;
      forall j | 0 <= j < k - 1 ensures rest[9 * j + 8] == 255 {
        assert b[9 * (j + 1) + 8] == 255;
      }
      assert rest[9 * (k - 1)..] == b[9 * k..];
      DecodeIs(rest, k - 1);
    }
  }

  lemma {:induction false} FullGroupsExist(b: seq<byte>) returns (k: nat)
    ensures FullGroups(b, k)
    decreases |b|
  {
    if |b| < 9 || b[8] != 255 {
      k := 0;
    } else {
      var rest := b[9..];
      var j := FullGroupsExist(rest);
      k := j + 1;
      forall i | 0 <= i < k ensures b[9 * i + 8] == 255 {
        if i > 0 {
          assert rest[9 * (i - 1) + 8] == 255;
        }
      }
    }
  }

  // ---- decoding inverts encoding, both ways ------------------------------------------------

  /** Whatever follows an encoding, decoding takes exactly the encoding off. */
  lemma {:induction false} DecodeEncode(x: seq<byte>, r: seq<byte>)
    ensures Decode(Encode(x) + r) == Ok(r, x)
    decreases |x|
  {
    if |x| >= GROUP {
      var b := Encode(x) + r;
      assert b[..GROUP] == Group(x) && b[GROUP] == Marker(x);
      assert b[GROUP + 1..] == Encode(x[GROUP..]) + r;
      DecodeEncode(x[GROUP..], r);
      assert x == x[..GROUP] + x[GROUP..];
    } else {
      DecodeLast(x, r);
    }
  }

  lemma DecodeLast(x: seq<byte>, r: seq<byte>)
    requires |x| < GROUP
    ensures Decode(Encode(x) + r) == Ok(r, x)
  {
    var b := Encode(x) + r;
    assert b[..GROUP] == Group(x) && b[GROUP] == Marker(x);
    assert b[GROUP + 1..] == r;
    assert forall i :: |x| <= i < GROUP ==> b[i] == b[..GROUP][i];
    assert b[..|x|] == b[..GROUP][..|x|] == x;
  }

  /** Whatever decodes is an encoding of the result, followed by what is left. */
  lemma {:induction false} EncodeDecode(b: seq<byte>)
    requires Decode(b).Ok?
    ensures b == Encode(Decode(b).data) + Decode(b).left
    decreases |b|
  {
    var x := Decode(b).data;
    var padCount := (MARKER - b[GROUP]) as nat;
    assert b == b[..GROUP] + [b[GROUP]] + b[GROUP + 1..];
    if padCount == 0 {
      EncodeDecode(b[GROUP + 1..]);
      var rest := Decode(b[GROUP + 1..]).data;
      assert x[..GROUP] == b[..GROUP] && x[GROUP..] == rest;
    } else {
      assert Group(x) == b[..GROUP];
    }
  }

  /** Decoding fails exactly on the strings that do not begin with an encoding. */
  lemma DecodesIff(b: seq<byte>)
    ensures Decode(b).Ok? <==> exists x, r :: b == Encode(x) + r
  {
    if Decode(b).Ok? {
      EncodeDecode(b);
    }
    if exists x, r :: b == Encode(x) + r {
      var x, r :| b == Encode(x) + r;
      DecodeEncode(x, r);
    }
  }

  /** The code is prefix-free: no encoding begins another. */
  lemma PrefixFree(x: seq<byte>, y: seq<byte>)
    requires Encode(x) <= Encode(y)
    ensures x == y
  {
    var r := Encode(y)[|Encode(x)|..];
    assert Encode(y) == Encode(x) + r;
    DecodeEncode(x, r);
    DecodeEncode(y, []);
    assert Encode(y) + [] == Encode(y);
  }

  // ---- order -------------------------------------------------------------------------------

  /** Encodings sort as the strings do, whatever is appended to them. */
  lemma {:induction false} EncodeOrder(x: seq<byte>, y: seq<byte>, r: seq<byte>, s: seq<byte>)
    requires Less(x, y)
    ensures Less(Encode(x) + r, Encode(y) + s)
    decreases |x|
  {
    var k: nat :| LessAt(x, y, k);
    if k >= GROUP {
      var tx, ty := x[GROUP..], y[GROUP..];
      assert LessAt(tx, ty, k - GROUP);
      EncodeOrder(tx, ty, r, s);
      assert x[..GROUP] == y[..GROUP];
      LaterGroupOrder(x, y, r, s);
    } else {
      FirstGroupOrder(x, y, k, r, s);
    }
  }

  /** Strings with the same first group compare by the rest. */
  lemma LaterGroupOrder(x: seq<byte>, y: seq<byte>, r: seq<byte>, s: seq<byte>)
    requires |x| >= GROUP && |y| >= GROUP && x[..GROUP] == y[..GROUP]
    requires Less(Encode(x[GROUP..]) + r, Encode(y[GROUP..]) + s)
    ensures Less(Encode(x) + r, Encode(y) + s)
  {
    var p := Group(x) + [Marker(x)];
    assert Encode(x) + r == p + (Encode(x[GROUP..]) + r);
    assert Encode(y) + s == p + (Encode(y[GROUP..]) + s);
    LessAfterPrefix(p, Encode(x[GROUP..]) + r, Encode(y[GROUP..]) + s);
  }

  /** Strings that differ in the first group: so do the groups, or else the markers. */
  lemma FirstGroupOrder(x: seq<byte>, y: seq<byte>, k: nat, r: seq<byte>, s: seq<byte>)
    requires LessAt(x, y, k) && k < GROUP
    ensures Less(Encode(x) + r, Encode(y) + s)
  {
    var ex, ey := Encode(x) + r, Encode(y) + s;
    var gx, gy := Group(x), Group(y);
    EncodedStart(x, r);
    EncodedStart(y, s);
    GroupAgrees(x, y, k);
    var j := if k < |x| then k else Common(gx, gy);
    assert LessAt(ex, ey, j);
  }

  lemma EncodedStart(x: seq<byte>, r: seq<byte>)
    ensures var e := Encode(x) + r;
            && |e| > GROUP && e[GROUP] == Marker(x)
            && forall i :: 0 <= i < GROUP ==> e[i] == Group(x)[i]
  {
  }

  lemma GroupAgrees(x: seq<byte>, y: seq<byte>, k: nat)
    requires LessAt(x, y, k) && k < GROUP
    ensures forall j :: 0 <= j < k ==> Group(x)[j] == Group(y)[j]
    ensures k < |x| ==> Group(x)[k] < Group(y)[k]
    ensures k == |x| ==> Marker(x) < Marker(y) && forall j :: k <= j < GROUP ==> Group(x)[j] == PAD
  {
  }

  /** EncodeBytes is an order embedding. */
  lemma EncodeEmbedsOrder(x: seq<byte>, y: seq<byte>)
    ensures Less(x, y) <==> Less(Encode(x), Encode(y))
  {
    assert Encode(x) + [] == Encode(x) && Encode(y) + [] == Encode(y);
    if Less(x, y) {
      EncodeOrder(x, y, [], []);
    } else if Less(y, x) {
      EncodeOrder(y, x, [], []);
      LessAsymmetric(Encode(y), Encode(x));
    } else {
      LessTotal(x, y);
      LessIrreflexive(Encode(x));
    }
  }

  // ---- timestamped keys --------------------------------------------------------------------

  function EncodeKey(key: seq<byte>, ts: uint64): seq<byte> {
    Encode(key) + BigEndian(TWO_64 - 1 - ts, 8)
  }

  /** The bytes of an encoded key: those of the user key, then the complement of the timestamp, most
      significant byte first. */
  lemma KeyBytes(key: seq<byte>, ts: uint64, i: nat)
    requires i < 8
    ensures Encode(key) <= EncodeKey(key, ts) && |EncodeKey(key, ts)| == |Encode(key)| + 8
    ensures EncodeKey(key, ts)[|Encode(key)| + i] as nat == (0xFFFF_FFFF_FFFF_FFFF - ts) / Pow256(7 - i) % 256
  {
    BigEndianByte(TWO_64 - 1 - ts, 8, i);
  }

  /** EncodeKey as the source fills the buffer: eight zero bytes, then the complement written
      most significant byte first. */
  method EncodeKeyInPlace(key: seq<byte>, ts: uint64) returns (newKey: array<byte>)
    ensures fresh(newKey) && newKey[..] == EncodeKey(key, ts)
  {
    var encodedKey := EncodeBytes(key);
    var n := |encodedKey|;
    newKey := new byte[n + 8](i requires 0 <= i < n + 8 => if i < n then encodedKey[i] else 0);
    assert newKey[..n] == encodedKey;
    PutUint64(newKey, n, TWO_64 - 1 - ts);
    assert newKey[..] == newKey[..n] + newKey[n..];
  }

  /** Eight bytes from `at` on, most significant first. */
  method PutUint64(b: array<byte>, at: nat, value: nat)
    requires b.Length == at + 8
    modifies b
    ensures b[..at] == old(b[..at]) && b[at..] == BigEndian(value, 8)
  {
    var v := value;
    var i := 8;
    ghost var want := BigEndian(v, 8);
    assert want[..8] == want;
    while i > 0
      invariant 0 <= i <= 8
      invariant b[..at] == old(b[..at])
      invariant want[..i] == BigEndian(v, i)
      invariant b[at + i..] == want[i..]
    {
      i := i - 1;
      assert want[..i + 1][..i] == want[..i];
      b[at + i] := (v % 256) as byte;
      v := v / 256;
    }
  }

  datatype Result<+T> = Value(value: T) | Panic

  function DecodeUserKey(key: seq<byte>): Result<seq<byte>> {
    match Decode(key)
    case Ok(_, userKey) => Value(userKey)
    case Err(_) => Panic
  }

  /** Reading a uint64 off fewer than eight bytes panics. */
  function DecodeTimestamp(key: seq<byte>): Result<nat> {
    match Decode(key)
    case Ok(left, _) => if |left| < 8 then Panic else Value(TWO_64 - 1 - BigEndianUint64(left[..8]))
    case Err(_) => Panic
  }

  function BigEndianUint64(b: seq<byte>): (r: uint64)
    requires |b| == 8
  {
    BigEndianBound(b);
    assert Pow256(8) == TWO_64;
    BigEndianValue(b)
  }

  lemma {:induction false} BigEndianBound(b: seq<byte>)
    ensures BigEndianValue(b) < Pow256(|b|)
  {
    if b != [] {
      BigEndianBound(b[..|b| - 1]);
    }
  }

  /** User key and timestamp are recovered from every encoded key. */
  lemma KeyRoundTrip(key: seq<byte>, ts: uint64)
    ensures DecodeUserKey(EncodeKey(key, ts)) == Value(key)
    ensures DecodeTimestamp(EncodeKey(key, ts)) == Value(ts)
  {
    var v := TWO_64 - 1 - ts;
    assert Pow256(8) == TWO_64;
    DecodeEncode(key, BigEndian(v, 8));
    BigEndianRoundTrip(v, 8);
    assert BigEndian(v, 8)[..8] == BigEndian(v, 8);
  }

  /** Encoded keys sort by key ascending, then by timestamp descending. */
  lemma KeyOrder(k: seq<byte>, t: uint64, l: seq<byte>, u: uint64)
    ensures Less(EncodeKey(k, t), EncodeKey(l, u)) <==> Less(k, l) || (k == l && t > u)
  {
    LessTotal(k, l);
    if k == l {
      LessIrreflexive(k);
      SameKeyOrder(k, t, u);
    } else if Less(k, l) {
      EncodeOrder(k, l, BigEndian(TWO_64 - 1 - t, 8), BigEndian(TWO_64 - 1 - u, 8));
    } else {
      EncodeOrder(l, k, BigEndian(TWO_64 - 1 - u, 8), BigEndian(TWO_64 - 1 - t, 8));
      LessAsymmetric(EncodeKey(l, u), EncodeKey(k, t));
    }
  }

  lemma SameKeyOrder(k: seq<byte>, t: uint64, u: uint64)
    ensures Less(EncodeKey(k, t), EncodeKey(k, u)) <==> t > u
  {
    var m, n := TWO_64 - 1 - t, TWO_64 - 1 - u;
    assert Pow256(8) == TWO_64;
    if t > u {
      LaterFirst(k, t, u);
    } else if t < u {
      LaterFirst(k, u, t);
      LessAsymmetric(EncodeKey(k, u), EncodeKey(k, t));
    } else {
      LessIrreflexive(EncodeKey(k, t));
    }
  }

  lemma LaterFirst(k: seq<byte>, t: uint64, u: uint64)
    requires t > u
    ensures Less(EncodeKey(k, t), EncodeKey(k, u))
  {
    var m, n := TWO_64 - 1 - t, TWO_64 - 1 - u;
    assert Pow256(8) == TWO_64;
    BigEndianOrder(m, n, 8, [], []);
    assert BigEndian(m, 8) + [] == BigEndian(m, 8) && BigEndian(n, 8) + [] == BigEndian(n, 8);
    LessAfterPrefix(Encode(k), BigEndian(m, 8), BigEndian(n, 8));
  }

  // ---- split keys --------------------------------------------------------------------------

  /** The bound a split is made at: a key that decodes loses its timestamp, a raw key is kept. */
  function SplitBound(key: seq<byte>): seq<byte> {
    match Decode(key)
    case Ok(_, userKey) => Encode(userKey)
    case Err(_) => key
  }

  /** A split at a version of user key `u` puts every version of every user key on the side its
      user key falls on: none of `u` or above it is below the bound, all of those before `u` are. */
  lemma SplitKeepsVersionsTogether(u: seq<byte>, ts: uint64, w: seq<byte>, t: uint64)
    ensures SplitBound(EncodeKey(u, ts)) == Encode(u)
    ensures Less(EncodeKey(w, t), SplitBound(EncodeKey(u, ts))) <==> Less(w, u)
    ensures !Less(EncodeKey(u, ts), SplitBound(EncodeKey(u, ts)))
  {
    DecodeEncode(u, BigEndian(TWO_64 - 1 - ts, 8));
    BoundSide(u, w, t);
    BoundSide(u, u, ts);
    LessIrreflexive(u);
  }

  lemma BoundSide(u: seq<byte>, w: seq<byte>, t: uint64)
    ensures Less(EncodeKey(w, t), Encode(u)) <==> Less(w, u)
  {
    var b := BigEndian(TWO_64 - 1 - t, 8);
    assert Encode(u) + [] == Encode(u);
    LessTotal(w, u);
    if w == u {
      LessIrreflexive(u);
      assert LessAt(Encode(u), EncodeKey(w, t), |Encode(u)|);
      LessAsymmetric(Encode(u), EncodeKey(w, t));
    } else if Less(w, u) {
      EncodeOrder(w, u, b, []);
    } else {
      EncodeOrder(u, w, [], b);
      LessAsymmetric(Encode(u), EncodeKey(w, t));
      LessAsymmetric(u, w);
    }
  }
}
