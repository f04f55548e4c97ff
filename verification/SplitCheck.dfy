/** Choosing where to split a region (kv/raftstore/runner/split_checker.go). */
module SplitCheck {
  import opened Bytes
  import opened KeyCodec

  datatype Item = Item(key: seq<byte>, valueSize: nat)

  datatype Option<+T> = None | Some(value: T)

  /** bytes.Compare(a, b) < 0, computed. */
  predicate Before(a: seq<byte>, b: seq<byte>) {
    var k := Common(a, b);
    k < |b| && (k == |a| || a[k] < b[k])
  }

  lemma BeforeIsLess(a: seq<byte>, b: seq<byte>)
    ensures Before(a, b) <==> Less(a, b)
  {
    var k := Common(a, b);
    if Before(a, b) {
      assert LessAt(a, b, k);
    } else if k < |a| {
      assert LessAt(b, a, k);
      LessAsymmetric(b, a);
    }
  }

  /** engine_util.ExceedEndKey: an empty end key is unbounded. */
  predicate ExceedEndKey(current: seq<byte>, endKey: seq<byte>) {
    |endKey| > 0 && !Before(current, endKey)
  }

  /** Size of the first `n` items, keys and values. */
  function Total(items: seq<Item>, n: nat): nat
    requires n <= |items|
  {
    if n == 0 then 0 else Total(items, n - 1) + |items[n - 1].key| + items[n - 1].valueSize
  }

  lemma {:induction false} TotalRises(items: seq<Item>, m: nat, n: nat)
    requires m <= n <= |items|
    ensures Total(items, m) <= Total(items, n)
  {
    if m < n {
      TotalRises(items, m, n - 1);
    }
  }

  /** The first `n` items as they are stored: each key followed by its value. */
  function Stored(items: seq<Item>, values: seq<seq<byte>>, n: nat): seq<byte>
    requires n <= |items| == |values|
  {
    if n == 0 then [] else Stored(items, values, n - 1) + items[n - 1].key + values[n - 1]
  }

  /** The size counted is the number of bytes of keys and values. */
  lemma {:induction false} TotalIsBytes(items: seq<Item>, values: seq<seq<byte>>, n: nat)
    requires n <= |items| == |values| && forall i :: 0 <= i < |items| ==> |values[i]| == items[i].valueSize
    ensures Total(items, n) == |Stored(items, values, n)|
  {
    if n > 0 {
      TotalIsBytes(items, values, n - 1);
    }
  }

  /** Item `k` is the one that takes the running size past `limit`. */
  predicate Crosses(items: seq<Item>, k: nat, limit: nat) {
    k < |items| && Total(items, k) <= limit < Total(items, k + 1)
  }

  /** `key` is that of the one item among the first `n` that takes the running size past `limit`. */
  predicate ChosenAt(items: seq<Item>, n: nat, k: nat, limit: nat, key: seq<byte>) {
    k < n && Crosses(items, k, limit) && key == items[k].key
  }

  lemma CrossesOnce(items: seq<Item>, j: nat, k: nat, limit: nat)
    requires Crosses(items, j, limit) && Crosses(items, k, limit)
    ensures j == k
  {
    if j < k {
      TotalRises(items, j + 1, k);
    } else if k < j {
      TotalRises(items, k + 1, j);
    }
  }

  class SizeSplitChecker {
    const maxSize: nat
    const splitSize: nat
    var currentSize: nat
    var splitKey: Option<seq<byte>>

    constructor (maxSize: nat, splitSize: nat)
      ensures this.maxSize == maxSize && this.splitSize == splitSize
    {
      this.maxSize, this.splitSize := maxSize, splitSize;
      currentSize, splitKey := 0, None;
    }

    /** After the first `n` items: their size, and the key of the item that crossed splitSize. */
    ghost predicate Seen(items: seq<Item>, n: nat)
      reads this
    {
      && n <= |items|
      && currentSize == Total(items, n)
      && (splitKey.None? <==> currentSize <= splitSize)
      && (splitKey.Some? ==> exists k :: ChosenAt(items, n, k, splitSize, splitKey.value))
    }

    method Reset(ghost items: seq<Item>)
      modifies this
      ensures Seen(items, 0)
    {
      currentSize := 0;
      splitKey := None;
    }

    method OnKv(item: Item, ghost items: seq<Item>, ghost n: nat) returns (stop: bool)
      requires n < |items| && items[n] == item && Seen(items, n)
      modifies this
      ensures Seen(items, n + 1) && currentSize == old(currentSize) + |item.key| + item.valueSize
      ensures stop <==> Total(items, n + 1) > maxSize
    {
      var size := |item.key| + item.valueSize;
      currentSize := currentSize + size;
      if currentSize > splitSize && splitKey == None {
        splitKey := Some(item.key);
        assert ChosenAt(items, n + 1, n, splitSize, item.key);
      } else if splitKey.Some? {
        ghost var k :| ChosenAt(items, n, k, splitSize, splitKey.value);
        assert ChosenAt(items, n + 1, k, splitSize, splitKey.value);
      }
      return currentSize > maxSize;
    }

    method GetSplitKey() returns (key: Option<seq<byte>>)
      modifies this
      ensures key == if currentSize < maxSize then None else old(splitKey)
      ensures splitKey == key && currentSize == old(currentSize)
    {
      if currentSize < maxSize {
        splitKey := None;
      }
      return splitKey;
    }
  }

  /** None of the first `n` items is at or past the end key. */
  predicate InRange(items: seq<Item>, endKey: seq<byte>, n: nat)
    requires n <= |items|
  {
    n == 0 || (InRange(items, endKey, n - 1) && !ExceedEndKey(items[n - 1].key, endKey))
  }

  /** A scan ends after `n` items: at the first that takes the size past maxSize, at the end
      key, or with the last item. */
  predicate ScanEnds(items: seq<Item>, endKey: seq<byte>, maxSize: nat, n: nat) {
    && n <= |items|
    && InRange(items, endKey, n)
    && (if Total(items, n) > maxSize then n > 0 && Total(items, n - 1) <= maxSize
        else n == |items| || ExceedEndKey(items[n].key, endKey))
  }

  method Scan(checker: SizeSplitChecker, items: seq<Item>, endKey: seq<byte>) returns (ghost scanned: nat)
    modifies checker
    ensures ScanEnds(items, endKey, checker.maxSize, scanned)
    ensures checker.Seen(items, scanned)
  {
    checker.Reset(items);
    var i := 0;
    while i < |items|
      invariant 0 <= i <= |items| && checker.Seen(items, i)
      invariant Total(items, i) <= checker.maxSize
      invariant InRange(items, endKey, i)
    {
      if ExceedEndKey(items[i].key, endKey) {
        return i;
      }
      var stop := checker.OnKv(items[i], items, i);
      if stop {
        return i + 1;
      }
      i := i + 1;
    }
    return i;
  }

  /** A key is chosen exactly when the scanned size reaches maxSize and passes splitSize, and it is
      the first key at which the running size exceeds splitSize. */
  method Check(checker: SizeSplitChecker, items: seq<Item>, endKey: seq<byte>)
    returns (key: Option<seq<byte>>, ghost scanned: nat)
    modifies checker
    ensures ScanEnds(items, endKey, checker.maxSize, scanned)
    ensures key.Some? <==> Total(items, scanned) >= checker.maxSize && Total(items, scanned) > checker.splitSize
    ensures key.Some? ==> exists k :: ChosenAt(items, scanned, k, checker.splitSize, key.value)
  {
    scanned := Scan(checker, items, endKey);
    key := checker.GetSplitKey();
  }

  // ---- the bound ---------------------------------------------------------------------------

  /** Two keys that begin with the encoding of `u` are on the same side of `bound`. */
  ghost predicate OneSide(bound: seq<byte>, u: seq<byte>, r: seq<byte>, s: seq<byte>) {
    Less(Encode(u) + r, bound) <==> Less(Encode(u) + s, bound)
  }

  /** What follows `p` does not matter against a key that does not begin with `p`. */
  lemma NotPrefixSide(p: seq<byte>, b: seq<byte>, r: seq<byte>)
    requires !(p <= b)
    ensures Less(p + r, b) <==> Less(p, b)
  {
    if Less(p, b) {
      var k: nat :| LessAt(p, b, k);
      assert LessAt(p + r, b, k);
    } else if Less(p + r, b) {
      var k: nat :| LessAt(p + r, b, k);
      assert LessAt(p, b, k);
    }
  }

  /** The bound begins the key it is made from. */
  lemma BoundBegins(key: seq<byte>)
    ensures SplitBound(key) <= key
  {
    if Decode(key).Ok? {
      EncodeDecode(key);
    }
  }

  /** What the bound is: the encoding of a user key that the key begins with, the key itself if there
      is none. */
  lemma BoundIs(key: seq<byte>, u: seq<byte>)
    ensures Encode(u) <= key ==> SplitBound(key) == Encode(u)
    ensures (forall v :: !(Encode(v) <= key)) ==> SplitBound(key) == key
  {
    if Encode(u) <= key {
      assert key == Encode(u) + key[|Encode(u)|..];
      DecodeEncode(u, key[|Encode(u)|..]);
    }
    if Decode(key).Ok? {
      EncodeDecode(key);
      assert Encode(Decode(key).data) <= key;
    }
  }

  /** No bound falls among keys of one user key, be the key it is made from encoded or raw. */
  lemma BoundNeverSeparates(key: seq<byte>, u: seq<byte>, r: seq<byte>, s: seq<byte>)
    ensures OneSide(SplitBound(key), u, r, s)
  {
    var p, b := Encode(u), SplitBound(key);
    if p <= b {
      BoundBegins(key);
      assert key == p + key[|p|..];
      DecodeEncode(u, key[|p|..]);
      NotBeforePrefix(p, r);
      NotBeforePrefix(p, s);
    } else {
      NotPrefixSide(p, b, r);
      NotPrefixSide(p, b, s);
    }
  }

  lemma NotBeforePrefix(p: seq<byte>, r: seq<byte>)
    ensures !Less(p + r, p)
  {
  }

  /** The bound made from a key at or after a region's start is strictly after the start, so that
      neither half is empty, exactly if the start does not begin with it. */
  lemma BoundAfterStartIff(start: seq<byte>, key: seq<byte>)
    requires !Less(key, start)
    ensures Less(start, SplitBound(key)) <==> !(SplitBound(key) <= start)
  {
    var b := SplitBound(key);
    BoundBegins(key);
    assert key == b + key[|b|..];
    if b <= start {
      assert start == b + start[|b|..];
      NotBeforePrefix(b, start[|b|..]);
    } else {
      LessTotal(start, b);
      if Less(b, start) {
        NotPrefixSide(b, start, key[|b|..]);
      }
    }
  }

  /** Items as an iterator gives them from `start` on. */
  ghost predicate From(items: seq<Item>, start: seq<byte>) {
    && (forall i {:trigger items[i]} :: 0 <= i < |items| ==> !Less(items[i].key, start))
    && (forall i, j {:trigger items[i], items[j]} :: 0 <= i < j < |items| ==> Less(items[i].key, items[j].key))
  }

  /** How many items at the beginning have keys of user key `u`. */
  function Leading(items: seq<Item>, u: seq<byte>): (n: nat)
    ensures n <= |items| && (n < |items| ==> !(Encode(u) <= items[n].key))
    ensures forall i {:trigger items[i]} :: 0 <= i < n ==> Encode(u) <= items[i].key
  {
    if items == [] || !(Encode(u) <= items[0].key) then 0 else 1 + Leading(items[1..], u)
  }

  /** Once past the keys of a user key there are no more of them. */
  lemma NoneAfter(items: seq<Item>, u: seq<byte>, i: nat, j: nat)
    requires From(items, Encode(u)) && i < j < |items| && !(Encode(u) <= items[i].key)
    ensures !(Encode(u) <= items[j].key)
  {
    PastPrefix(Encode(u), items[i].key, items[j].key);
  }

  /** After a key past all those that begin with `p` comes none that does. */
  lemma PastPrefix(p: seq<byte>, x: seq<byte>, y: seq<byte>)
    requires !Less(x, p) && !(p <= x) && Less(x, y)
    ensures !(p <= y)
  {
    LessTotal(p, x);
    var k: nat :| LessAt(p, x, k);
    var j: nat :| LessAt(x, y, j);
    var d := if j <= k then j else k;
    assert y[d] != p[d];
  }

  /** For a region that starts at a user key, as one does that was split off at an encoded key: the bound
      from the chosen key is strictly after the start exactly if the versions of that user key do
      not pass splitSize by themselves. */
  lemma SplitsOffIff(items: seq<Item>, u: seq<byte>, n: nat, k: nat, splitSize: nat, key: seq<byte>)
    requires From(items, Encode(u)) && ChosenAt(items, n, k, splitSize, key)
    ensures Less(Encode(u), SplitBound(key)) <==> Total(items, Leading(items, u)) <= splitSize
  {
    var lead := Leading(items, u);
    BoundAfterStartIff(Encode(u), key);
    BoundIsStart(u, key);
    if k < lead {
      TotalRises(items, k + 1, lead);
    } else {
      TotalRises(items, lead, k);
      if lead < k {
        NoneAfter(items, u, lead, k);
      }
    }
  }

  /** It can fail, for any splitSize: a single version that passes it gives the start itself as the bound. */
  lemma NothingSplitOff(u: seq<byte>, ts: uint64, valueSize: nat, splitSize: nat)
    requires valueSize > splitSize
    ensures var key := EncodeKey(u, ts);
            var items := [Item(key, valueSize)];
            From(items, Encode(u)) && ChosenAt(items, 1, 0, splitSize, key) && SplitBound(key) == Encode(u)
  {
    var rest := BigEndian(TWO_64 - 1 - ts, 8);
    var items := [Item(EncodeKey(u, ts), valueSize)];
    NotBeforePrefix(Encode(u), rest);
    BoundOf(u, rest);
    assert Total(items, 0) == 0 && Total(items, 1) == |EncodeKey(u, ts)| + valueSize;
  }

  /** The bound of a key begins the encoding of `u` exactly if the key is one of user key `u`. */
  lemma BoundIsStart(u: seq<byte>, key: seq<byte>)
    requires !Less(key, Encode(u))
    ensures SplitBound(key) <= Encode(u) <==> Encode(u) <= key
  {
    var p := Encode(u);
    if p <= key {
      BoundOf(u, key[|p|..]);
      assert key == p + key[|p|..];
    } else {
      BoundOfOther(u, key);
    }
  }

  lemma BoundOf(u: seq<byte>, r: seq<byte>)
    ensures SplitBound(Encode(u) + r) == Encode(u)
  {
    DecodeEncode(u, r);
  }

  lemma BoundOfOther(u: seq<byte>, key: seq<byte>)
    requires !(Encode(u) <= key) && !Less(key, Encode(u))
    ensures !(SplitBound(key) <= Encode(u))
  {
    BoundBegins(key);
    if Decode(key).Ok? {
      if SplitBound(key) <= Encode(u) {
        PrefixFree(Decode(key).data, u);
      }
    } else if key <= Encode(u) {
      ProperPrefixFirst(key, Encode(u));
    }
  }

  lemma ProperPrefixFirst(a: seq<byte>, b: seq<byte>)
    requires a <= b && a != b
    ensures Less(a, b)
  {
    assert LessAt(a, b, |a|);
  }

  lemma {:induction false} InRangeAt(items: seq<Item>, endKey: seq<byte>, n: nat, k: nat)
    requires k < n <= |items| && InRange(items, endKey, n)
    ensures !ExceedEndKey(items[k].key, endKey)
  {
    if k < n - 1 {
      InRangeAt(items, endKey, n - 1, k);
    }
  }

  /** The bound made from a key before a region's end is before the end. */
  lemma BoundBeforeEnd(key: seq<byte>, endKey: seq<byte>)
    requires !ExceedEndKey(key, endKey)
    ensures !ExceedEndKey(SplitBound(key), endKey)
  {
    var b := SplitBound(key);
    BoundBegins(key);
    BeforeIsLess(key, endKey);
    BeforeIsLess(b, endKey);
    if b != key {
      ProperPrefixFirst(b, key);
      if Less(key, endKey) {
        LessTransitive(b, key, endKey);
      }
    }
  }

  /** The bound sent to the region: versions of one user key never end up on both sides of it. */
  method Handle(checker: SizeSplitChecker, items: seq<Item>, endKey: seq<byte>)
    returns (bound: Option<seq<byte>>, ghost scanned: nat)
    modifies checker
    ensures ScanEnds(items, endKey, checker.maxSize, scanned)
    ensures bound.Some? <==> Total(items, scanned) >= checker.maxSize && Total(items, scanned) > checker.splitSize
    ensures bound.Some? ==> exists k, key :: ChosenAt(items, scanned, k, checker.splitSize, key) && bound.value == SplitBound(key)
    ensures bound.Some? ==> forall u, r, s :: OneSide(bound.value, u, r, s)
    ensures bound.Some? ==> !ExceedEndKey(bound.value, endKey)
  {
    var key: Option<seq<byte>>;
    key, scanned := Check(checker, items, endKey);
    if key.None? {
      return None, scanned;
    }
    var r := DecodeBytes(key.value);
    var out := key.value;
    if r.Ok? {
      out := EncodeBytes(r.data);
    }
    ghost var k :| ChosenAt(items, scanned, k, checker.splitSize, key.value);
    InRangeAt(items, endKey, scanned, k);
    BoundBeforeEnd(key.value, endKey);
    forall u, r, s ensures OneSide(out, u, r, s) {
      BoundNeverSeparates(key.value, u, r, s);
    }
    return Some(out), scanned;
  }
}
