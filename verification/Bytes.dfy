/** Byte strings, the order bytes.Compare gives them, and fixed-width integers in them. */
module Bytes {
  newtype byte = b: int | 0 <= b < 256

  const TWO_64: nat := 0x1_0000_0000_0000_0000

  type uint64 = n: nat | n < 0x1_0000_0000_0000_0000

  /** `a` sorts before `b` because of position `k`: they agree before it, and there `a` ends or
      has the smaller byte. */
  ghost predicate LessAt(a: seq<byte>, b: seq<byte>, k: nat) {
    && k <= |a| && k < |b|
    && (forall i :: 0 <= i < k ==> a[i] == b[i])
    && (k < |a| ==> a[k] < b[k])
  }

  /** bytes.Compare(a, b) < 0. */
  ghost predicate Less(a: seq<byte>, b: seq<byte>) {
    exists k: nat :: LessAt(a, b, k)
  }

  lemma LessIrreflexive(a: seq<byte>)
    ensures !Less(a, a)
  {
  }

  lemma LessAsymmetric(a: seq<byte>, b: seq<byte>)
    requires Less(a, b)
    ensures !Less(b, a)
  {
    var k: nat :| LessAt(a, b, k);
  }

  lemma LessTransitive(a: seq<byte>, b: seq<byte>, c: seq<byte>)
    requires Less(a, b) && Less(b, c)
    ensures Less(a, c)
  {
    var k: nat :| LessAt(a, b, k);
    var j: nat :| LessAt(b, c, j);
    assert LessAt(a, c, if k < j then k else j);
  }

  /** Length of the longest common prefix. */
  function Common(a: seq<byte>, b: seq<byte>): (k: nat)
    ensures k <= |a| && k <= |b| && forall i :: 0 <= i < k ==> a[i] == b[i]
    ensures k < |a| && k < |b| ==> a[k] != b[k]
  {
    if a == [] || b == [] || a[0] != b[0] then 0
    else
      Common(a[1..], b[1..]) + 1
  }

  lemma LessTotal(a: seq<byte>, b: seq<byte>)
    ensures a == b || Less(a, b) || Less(b, a)
  {
    var k := Common(a, b);
    if k < |b| && (k == |a| || a[k] < b[k]) {
      assert LessAt(a, b, k);
    } else if k < |a| {
      assert LessAt(b, a, k);
    }
  }

  /** A common prefix does not matter. */
  lemma LessAfterPrefix(p: seq<byte>, a: seq<byte>, b: seq<byte>)
    ensures Less(p + a, p + b) <==> Less(a, b)
  {
    if Less(a, b) {
      var k: nat :| LessAt(a, b, k);
      assert LessAt(p + a, p + b, |p| + k);
    }
    if Less(p + a, p + b) {
      var k: nat :| LessAt(p + a, p + b, k);
      assert forall i :: 0 <= i < |p| ==> (p + a)[i] == p[i] == (p + b)[i];
      assert forall i :: 0 <= i < k - |p| ==> a[i] == (p + a)[|p| + i] && b[i] == (p + b)[|p| + i];
      assert LessAt(a, b, k - |p|);
    }
  }

  // ---- big-endian integers -----------------------------------------------------------------

  /** The low `len` bytes of `n`, most significant first. */
  function BigEndian(n: nat, len: nat): (r: seq<byte>)
    ensures |r| == len
  {
    if len == 0 then [] else BigEndian(n / 256, len - 1) + [(n % 256) as byte]
  }

  function BigEndianValue(b: seq<byte>): nat {
    if b == [] then 0 else BigEndianValue(b[..|b| - 1]) * 256 + b[|b| - 1] as nat
  }

  function Pow256(len: nat): (r: nat)
    ensures r > 0
  {
    if len == 0 then 1 else 256 * Pow256(len - 1)
  }

  lemma {:induction false} BigEndianRoundTrip(n: nat, len: nat)
    requires n < Pow256(len)
    ensures BigEndianValue(BigEndian(n, len)) == n
  {
    if len > 0 {
      BigEndianRoundTrip(n / 256, len - 1);
      var r := BigEndian(n, len);
      assert r[..len - 1] == BigEndian(n / 256, len - 1);
    }
  }

  /** Numbers compare as their big-endian bytes do, whatever follows. */
  lemma {:induction false} BigEndianOrder(m: nat, n: nat, len: nat, r: seq<byte>, s: seq<byte>)
    requires m < n < Pow256(len)
    ensures Less(BigEndian(m, len) + r, BigEndian(n, len) + s)
  {
    var bm, bn := [(m % 256) as byte], [(n % 256) as byte];
    var hm, hn := BigEndian(m / 256, len - 1), BigEndian(n / 256, len - 1);
    assert BigEndian(m, len) + r == hm + (bm + r);
    assert BigEndian(n, len) + s == hn + (bn + s);
    if m / 256 < n / 256 {
      BigEndianOrder(m / 256, n / 256, len - 1, bm + r, bn + s);
    } else {
      assert LessAt(bm + r, bn + s, 0);
      LessAfterPrefix(hm, bm + r, bn + s);
    }
  }

  lemma DivideTwice(n: nat, b: nat)
    requires b > 0
    ensures n / 256 / b == n / (256 * b)
  {
    var q, r, s := n / 256 / b, n / 256 % b, n % 256;
    assert n / 256 == b * q + r;
    Regroup(b, q);
    QuotientIs(n, 256 * b, q, 256 * r + s);
  }

  lemma Regroup(b: nat, q: nat)
    ensures 256 * (b * q) == (256 * b) * q
  {
  }

  lemma QuotientIs(n: nat, d: nat, q: nat, r: nat)
    requires n == d * q + r && r < d
    ensures n / d == q
  {
    var q', r' := n / d, n % d;
    assert d * q' + r' == d * q + r;
    TimesRises(d, q' + 1, q);
    TimesRises(d, q + 1, q');
  }

  lemma TimesRises(d: nat, a: nat, b: nat)
    ensures a <= b ==> d * a <= d * b
  {
  }

  /** Byte `i` of a big-endian integer, from the front. */
  lemma {:induction false} BigEndianByte(n: nat, len: nat, i: nat)
    requires i < len
    ensures BigEndian(n, len)[i] as nat == n / Pow256(len - 1 - i) % 256
  {
    if i < len - 1 {
      BigEndianByte(n / 256, len - 1, i);
      DivideTwice(n, Pow256(len - 2 - i));
    }
  }

  /** Byte `i` of a little-endian integer. */
  lemma {:induction false} LittleEndianByte(n: nat, len: nat, i: nat)
    requires i < len
    ensures LittleEndian(n, len)[i] as nat == n / Pow256(i) % 256
  {
    if i > 0 {
      LittleEndianByte(n / 256, len - 1, i - 1);
      DivideTwice(n, Pow256(i - 1));
    }
  }

  lemma RemainderSmall(x: nat, m: nat)
    requires x < m
    ensures x % m == x
  {
  }

  // ---- little-endian integers --------------------------------------------------------------

  /** The low `len` bytes of `n`, least significant first. */
  function LittleEndian(n: nat, len: nat): (r: seq<byte>)
    ensures |r| == len
  {
    if len == 0 then [] else [(n % 256) as byte] + LittleEndian(n / 256, len - 1)
  }

  function LittleEndianValue(b: seq<byte>): nat {
    if b == [] then 0 else b[0] as nat + 256 * LittleEndianValue(b[1..])
  }

  lemma {:induction false} LittleEndianRoundTrip(n: nat, len: nat)
    requires n < Pow256(len)
    ensures LittleEndianValue(LittleEndian(n, len)) == n
  {
    if len > 0 {
      LittleEndianRoundTrip(n / 256, len - 1);
      assert LittleEndian(n, len)[1..] == LittleEndian(n / 256, len - 1);
    }
  }

  lemma {:induction false} LittleEndianBound(b: seq<byte>)
    ensures LittleEndianValue(b) < Pow256(|b|)
  {
    if b != [] {
      LittleEndianBound(b[1..]);
    }
  }

  lemma {:induction false} LittleEndianBytes(b: seq<byte>)
    ensures LittleEndian(LittleEndianValue(b), |b|) == b
  {
    if b != [] {
      LittleEndianBytes(b[1..]);
    }
  }

  /** A list of integers in `width` little-endian bytes each. */
  function Pack(xs: seq<nat>, width: nat): (r: seq<byte>)
    ensures |r| == |xs| * width
  {
    if xs == [] then [] else LittleEndian(xs[0], width) + Pack(xs[1..], width)
  }

  /** The `k`th integer of a packed list. */
  lemma {:induction false} PackAt(xs: seq<nat>, width: nat, k: nat)
    requires k < |xs|
    ensures 0 <= k * width <= k * width + width <= |xs| * width
    ensures Pack(xs, width)[k * width..k * width + width] == LittleEndian(xs[k], width)
  {
    OneMore(|xs|, width);
    if k > 0 {
      PackAt(xs[1..], width, k - 1);
      OneMore(k, width);
      PastFirst(LittleEndian(xs[0], width), Pack(xs[1..], width), (k - 1) * width, (k - 1) * width + width);
    } else {
      PastFirst(LittleEndian(xs[0], width), Pack(xs[1..], width), 0, 0);
    }
  }

  lemma OneMore(k: nat, width: nat)
    requires k > 0
    ensures k * width == width + (k - 1) * width && (k - 1) * width >= 0
  {
  }

  lemma PastFirst(a: seq<byte>, rest: seq<byte>, i: nat, j: nat)
    requires i <= j <= |rest|
    ensures (a + rest)[..|a|] == a && (a + rest)[|a| + i..|a| + j] == rest[i..j]
  {
  }

  function Unpack(b: seq<byte>, n: nat, width: nat): (r: seq<nat>)
    requires |b| == n * width
    ensures |r| == n
  {
    if n == 0 then [] else
      assert n * width == (n - 1) * width + width;
      [LittleEndianValue(b[..width])] + Unpack(b[width..], n - 1, width)
  }

  lemma {:induction false} UnpackPack(xs: seq<nat>, width: nat)
    requires forall i :: 0 <= i < |xs| ==> xs[i] < Pow256(width)
    ensures Unpack(Pack(xs, width), |xs|, width) == xs
  {
    if xs != [] {
      var b := Pack(xs, width);
      assert b[..width] == LittleEndian(xs[0], width);
      assert b[width..] == Pack(xs[1..], width);
      LittleEndianRoundTrip(xs[0], width);
      UnpackPack(xs[1..], width);
    }
  }
}
