/** Streaming a snapshot's column-family files (kv/raftstore/snap/snap.go, and the loops around it
    in kv/storage/raft_storage/snap_runner.go). */
module SnapStream {
  import opened Bytes

  /** The stream is the files one after another. */
  function Concat(files: seq<seq<byte>>): seq<byte> {
    if files == [] then [] else files[0] + Concat(files[1..])
  }

  function Sum(sizes: seq<nat>): nat {
    if sizes == [] then 0 else sizes[0] + Sum(sizes[1..])
  }

  function Sizes(files: seq<seq<byte>>): (s: seq<nat>)
    ensures |s| == |files| && forall i :: 0 <= i < |s| ==> s[i] == |files[i]|
  {
    seq(|files|, i requires 0 <= i < |files| => |files[i]|)
  }

  /** The stream cut back into files of the given sizes, from the front, as far as it goes. */
  function Cut(sizes: seq<nat>, stream: seq<byte>): (files: seq<seq<byte>>)
    ensures |files| == |sizes|
  {
    if sizes == [] then []
    else
      var n := if sizes[0] < |stream| then sizes[0] else |stream|;
      [stream[..n]] + Cut(sizes[1..], stream[n..])
  }

  lemma {:induction false} CutConcat(files: seq<seq<byte>>)
    ensures Cut(Sizes(files), Concat(files)) == files
    ensures |Concat(files)| == Sum(Sizes(files))
  {
    if files != [] {
      CutConcat(files[1..]);
      assert Sizes(files)[1..] == Sizes(files[1..]);
      assert Concat(files)[|files[0]|..] == Concat(files[1..]);
    }
  }

  // ---- sending -----------------------------------------------------------------------------

  /** What is left to read of the files from `i` on. */
  function Unread(files: seq<seq<byte>>, offsets: seq<nat>, i: nat): seq<byte>
    requires OffsetsOk(files, offsets)
    decreases |files| - i
  {
    if i >= |files| then [] else files[i][offsets[i]..] + Unread(files, offsets, i + 1)
  }

  predicate OffsetsOk(files: seq<seq<byte>>, offsets: seq<nat>) {
    |offsets| == |files| && forall i :: 0 <= i < |files| ==> offsets[i] <= |files[i]|
  }

  lemma {:induction false} UnreadAll(files: seq<seq<byte>>, offsets: seq<nat>, i: nat)
    requires OffsetsOk(files, offsets) && i <= |files| && forall j :: 0 <= j < |files| ==> offsets[j] == 0
    ensures Unread(files, offsets, i) == Concat(files[i..])
    decreases |files| - i
  {
    if i < |files| {
      UnreadAll(files, offsets, i + 1);
      assert files[i..][1..] == files[i + 1..];
    }
  }

  lemma {:induction false} UnreadSame(files: seq<seq<byte>>, offsets: seq<nat>, offsets': seq<nat>, i: nat)
    requires OffsetsOk(files, offsets) && OffsetsOk(files, offsets')
    requires forall j :: i <= j < |files| ==> offsets[j] == offsets'[j]
    ensures Unread(files, offsets, i) == Unread(files, offsets', i)
    decreases |files| - i
  {
    if i < |files| {
      UnreadSame(files, offsets, offsets', i + 1);
    }
  }

  lemma ConcatShift(a: seq<byte>, b: seq<byte>, c: seq<byte>)
    ensures (a + b) + c == a + (b + c)
  {
  }

  /** A snapshot opened for sending. */
  class Sender {
    const files: seq<seq<byte>>
    const sizes: seq<nat>
    var offsets: seq<nat>
    var cfIndex: nat

    ghost predicate Valid()
      reads this
    {
      OffsetsOk(files, offsets) && sizes == Sizes(files)
    }

    ghost function Left(): seq<byte>
      requires Valid()
      reads this
    {
      Unread(files, offsets, cfIndex)
    }

    constructor (files: seq<seq<byte>>)
      ensures Valid() && this.files == files && Left() == Concat(files)
    {
      this.files := files;
      sizes := Sizes(files);
      offsets := seq(|files|, _ => 0);
      cfIndex := 0;
      new;
      UnreadAll(files, offsets, 0);
      assert files[0..] == files;
    }

    /** Read into `b[lo..hi]`: some next bytes of the stream, or the end of it. A file hands out
        any number of bytes that it has and that fit. */
    method Read(b: array<byte>, lo: nat, hi: nat) returns (n: nat, eof: bool)
      requires Valid() && lo <= hi <= b.Length
      modifies this, b
      ensures Valid() && n <= hi - lo
      ensures n == 0 <==> lo == hi || eof
      ensures lo < hi ==> (eof <==> old(Left()) == [])
      ensures lo == hi ==> !eof
      ensures old(Left()) == b[lo..lo + n] + Left()
      ensures b[..lo] == old(b[..lo]) && b[lo + n..] == old(b[lo + n..])
    {
      if lo == hi {
        return 0, false;
      }
      while cfIndex < |files|
        modifies `cfIndex
        invariant Valid() && Left() == old(Left())
        decreases |files| - cfIndex
      {
        if sizes[cfIndex] == 0 {
          cfIndex := cfIndex + 1;
          continue;
        }
        if offsets[cfIndex] < |files[cfIndex]| {
          break;
        }
        cfIndex := cfIndex + 1;
      }
      if cfIndex >= |files| {
        return 0, true;
      }
      n := ReadFile(b, lo, hi);
      eof := false;
    }

    /** One read of the current file, which has bytes left. */
    method ReadFile(b: array<byte>, lo: nat, hi: nat) returns (n: nat)
      requires Valid() && lo < hi <= b.Length
      requires cfIndex < |files| && offsets[cfIndex] < |files[cfIndex]|
      modifies `offsets, b
      ensures Valid() && 0 < n <= hi - lo
      ensures old(Left()) == b[lo..lo + n] + Left()
      ensures b[..lo] == old(b[..lo]) && b[lo + n..] == old(b[lo + n..])
    {
      var file, off := files[cfIndex], offsets[cfIndex];
      n :| 0 < n <= hi - lo && n <= |file| - off;
      CopyInto(b, lo, file[off..off + n]);
      offsets := offsets[cfIndex := off + n];
      UnreadSame(files, old(offsets), offsets, cfIndex + 1);
      assert file[off..] == file[off..off + n] + file[off + n..];
    }

    /** io.ReadFull: fill `b[..hi]`, or fail for want of bytes. */
    method ReadFull(b: array<byte>, hi: nat) returns (ok: bool)
      requires Valid() && hi <= b.Length
      modifies this, b
      ensures Valid()
      ensures ok <==> hi <= |old(Left())|
      ensures ok ==> b[..hi] == old(Left())[..hi] && Left() == old(Left())[hi..]
    {
      var got := 0;
      assert b[..0] + Left() == Left();
      while got < hi
        invariant Valid() && got <= hi
        invariant old(Left()) == b[..got] + Left()
      {
        ghost var before, left := b[..got], Left();
        var n, eof := Read(b, got, hi);
        if eof {
          return false;
        }
        assert b[..got + n] == before + b[got..got + n];
        ConcatShift(before, b[got..got + n], Left());
        got := got + n;
      }
      return true;
    }
  }

  method CopyInto(b: array<byte>, lo: nat, data: seq<byte>)
    requires lo + |data| <= b.Length
    modifies b
    ensures b[..lo] == old(b[..lo]) && b[lo..lo + |data|] == data && b[lo + |data|..] == old(b[lo + |data|..])
  {
    for i := 0 to |data|
      invariant forall j :: 0 <= j < b.Length ==> b[j] == if lo <= j < lo + i then data[j - lo] else old(b[j])
    {
      b[lo + i] := data[i];
    }
  }

  const CHUNK: nat := 1024 * 1024

  /** Every chunk holds something, and none more than the chunk length. */
  predicate ChunksOk(chunks: seq<seq<byte>>) {
    forall i {:trigger chunks[i]} :: 0 <= i < |chunks| ==> 0 < |chunks[i]| <= CHUNK
  }

  /** The first `n` chunks are of the full length. */
  predicate FullTo(chunks: seq<seq<byte>>, n: int) {
    forall i {:trigger chunks[i]} :: 0 <= i < n && i < |chunks| ==> |chunks[i]| == CHUNK
  }

  lemma {:induction false} ConcatSnoc(files: seq<seq<byte>>, x: seq<byte>)
    ensures Concat(files + [x]) == Concat(files) + x
  {
    if files == [] {
      assert [x][1..] == [];
    } else {
      assert (files + [x])[1..] == files[1..] + [x];
      ConcatSnoc(files[1..], x);
    }
  }

  /** The next `len` bytes of the stream. */
  method NextChunk(s: Sender, buf: array<byte>, len: nat) returns (chunk: seq<byte>)
    requires s.Valid() && len <= buf.Length && len <= |s.Left()|
    modifies s, buf
    ensures s.Valid() && |chunk| == len && old(s.Left()) == chunk + s.Left()
  {
    var ok := s.ReadFull(buf, len);
    chunk := buf[..len];
  }

  lemma AddChunk(chunks: seq<seq<byte>>, chunk: seq<byte>, left: seq<byte>, left': seq<byte>)
    requires ChunksOk(chunks) && 0 < |chunk| <= CHUNK && left == chunk + left'
    ensures ChunksOk(chunks + [chunk]) && Concat(chunks + [chunk]) + left' == Concat(chunks) + left
  {
    ConcatSnoc(chunks, chunk);
  }

  /** The whole stream in chunks. */
  method SendSnap(s: Sender) returns (chunks: seq<seq<byte>>)
    requires s.Valid() && s.Left() == Concat(s.files)
    modifies s
    ensures s.Valid() && s.Left() == [] && ChunksOk(chunks) && FullTo(chunks, |chunks| - 1)
    ensures Concat(chunks) == Concat(s.files)
  {
    chunks := [];
    var buf := new byte[CHUNK];
    var len := CHUNK;
    CutConcat(s.files);
    var remain := TotalSize(s.sizes);
    ghost var all := s.Left();
    while remain > 0
      invariant s.Valid() && remain == |s.Left()|
      invariant len == CHUNK || remain == 0
      invariant ChunksOk(chunks) && Concat(chunks) + s.Left() == all
      invariant FullTo(chunks, if remain > 0 then |chunks| else |chunks| - 1)
    {
      if remain < len {
        len := remain;
      }
      ghost var left := s.Left();
      var chunk := NextChunk(s, buf, len);
      AddChunk(chunks, chunk, left, s.Left());
      chunks := chunks + [chunk];
      remain := remain - len;
    }
  }

  method TotalSize(sizes: seq<nat>) returns (total: nat)
    ensures total == Sum(sizes)
  {
    total := 0;
    assert sizes[0..] == sizes;
    for i := 0 to |sizes|
      invariant total + Sum(sizes[i..]) == Sum(sizes)
    {
      assert sizes[i..][1..] == sizes[i + 1..];
      total := total + sizes[i];
    }
  }

  // ---- receiving ---------------------------------------------------------------------------

  /** Files before `i` are full, files after it empty. */
  predicate FilledTo(sizes: seq<nat>, files: seq<seq<byte>>, i: nat) {
    && |files| == |sizes|
    && (forall j {:trigger files[j]} :: 0 <= j < |files| ==> |files[j]| <= sizes[j])
    && (forall j {:trigger files[j]} :: 0 <= j < i && j < |files| ==> |files[j]| == sizes[j])
    && (forall j {:trigger files[j]} :: i < j < |files| ==> files[j] == [])
  }

  lemma CutCons(sizes: seq<nat>, x: seq<byte>, rest: seq<byte>)
    requires sizes != [] && (|x| == sizes[0] || (|x| <= sizes[0] && rest == []))
    ensures Cut(sizes, x + rest) == [x] + Cut(sizes[1..], rest)
  {
    assert (x + rest)[..|x|] == x && (x + rest)[|x|..] == rest;
  }

  /** Files filled in order are the stream received so far, cut. */
  lemma {:induction false} FilledIsCut(sizes: seq<nat>, files: seq<seq<byte>>, i: nat)
    requires FilledTo(sizes, files, i)
    ensures files == Cut(sizes, Concat(files))
  {
    if files != [] {
      var rest := files[1..];
      FilledIsCut(sizes[1..], rest, if i == 0 then 0 else i - 1);
      if i == 0 {
        ConcatEmpty(rest);
      }
      CutCons(sizes, files[0], Concat(rest));
      assert files == [files[0]] + rest;
    }
  }

  lemma {:induction false} ConcatEmpty(files: seq<seq<byte>>)
    requires forall j :: 0 <= j < |files| ==> files[j] == []
    ensures Concat(files) == []
  {
    if files != [] {
      ConcatEmpty(files[1..]);
    }
  }

  /** Adding to the last file that is not empty adds to the stream. */
  lemma {:induction false} ConcatExtend(files: seq<seq<byte>>, i: nat, x: seq<byte>)
    requires i < |files| && forall j :: i < j < |files| ==> files[j] == []
    ensures Concat(files[i := files[i] + x]) == Concat(files) + x
  {
    var files' := files[i := files[i] + x];
    if i == 0 {
      ConcatEmpty(files[1..]);
      assert files'[1..] == files[1..];
    } else {
      assert files'[1..] == files[1..][i - 1 := files[1..][i - 1] + x];
      ConcatExtend(files[1..], i - 1, x);
    }
  }

  lemma {:induction false} ConcatFull(sizes: seq<nat>, files: seq<seq<byte>>)
    requires |files| == |sizes| && forall j :: 0 <= j < |files| ==> |files[j]| <= sizes[j]
    ensures |Concat(files)| <= Sum(sizes)
    ensures (forall j :: 0 <= j < |files| ==> |files[j]| == sizes[j]) ==> |Concat(files)| == Sum(sizes)
  {
    if files != [] {
      ConcatFull(sizes[1..], files[1..]);
    }
  }

  /** A snapshot opened for receiving: files of known sizes, written in order. */
  class Receiver {
    const sizes: seq<nat>
    var files: seq<seq<byte>>
    var written: seq<nat>
    var cfIndex: nat

    ghost predicate Valid()
      reads this
    {
      FilledTo(sizes, files, cfIndex) && written == Sizes(files)
    }

    constructor (sizes: seq<nat>)
      ensures Valid() && this.sizes == sizes && Concat(files) == []
    {
      this.sizes := sizes;
      files := seq(|sizes|, _ => []);
      written := seq(|sizes|, _ => 0);
      cfIndex := 0;
      new;
      ConcatEmpty(files);
    }

    /** Append to the current file, which has room. */
    method WriteFile(x: seq<byte>)
      requires Valid() && cfIndex < |files| && |files[cfIndex]| + |x| <= sizes[cfIndex]
      modifies `files, `written
      ensures Valid() && Concat(files) == old(Concat(files)) + x
      ensures |files[cfIndex]| == old(|files[cfIndex]|) + |x|
    {
      ConcatExtend(files, cfIndex, x);
      written := written[cfIndex := written[cfIndex] + |x|];
      files := files[cfIndex := files[cfIndex] + x];
    }

    /** Append `b[from..to]` to the current file, after `b[..from]` went before it. */
    method WriteSlice(b: seq<byte>, from: nat, to: nat)
      requires Valid() && cfIndex < |files| && from <= to <= |b| && |files[cfIndex]| + (to - from) <= sizes[cfIndex]
      modifies `files, `written
      ensures Valid() && |files[cfIndex]| == old(|files[cfIndex]|) + (to - from)
      ensures forall before :: old(Concat(files)) == before + b[..from] ==> Concat(files) == before + b[..to]
    {
      WriteFile(b[from..to]);
      assert b[..to] == b[..from] + b[from..to];
      forall before | old(Concat(files)) == before + b[..from] ensures Concat(files) == before + b[..to] {
        ConcatShift(before, b[..from], b[from..to]);
      }
    }

    /** Spread a buffer over the files: it is taken whole, or until all files are full. */
    method Write(b: seq<byte>) returns (n: nat)
      requires Valid()
      modifies this
      ensures Valid() && n <= |b|
      ensures Concat(files) == old(Concat(files)) + b[..n]
      ensures n < |b| ==> |Concat(files)| == Sum(sizes)
    {
      if b == [] {
        return 0;
      }
      n := 0;
      while cfIndex < |files|
        invariant Valid() && n < |b|
        invariant Concat(files) == old(Concat(files)) + b[..n]
        decreases |files| - cfIndex
      {
        var left := sizes[cfIndex] - written[cfIndex];
        if left == 0 {
          cfIndex := cfIndex + 1;
        } else if |b| - n > left {
          WriteSlice(b, n, n + left);
          cfIndex := cfIndex + 1;
          n := n + left;
        } else {
          WriteSlice(b, n, |b|);
          return |b|;
        }
      }
      ConcatFull(sizes, files);
    }

    /** The files are the stream received so far, cut by their sizes. */
    lemma FilesAreCut()
      requires Valid()
      ensures files == Cut(sizes, Concat(files)) && |Concat(files)| <= Sum(sizes)
    {
      FilledIsCut(sizes, files, cfIndex);
      ConcatFull(sizes, files);
    }
  }

  /** Write chunk after chunk; an empty chunk, or one with bytes left over, is an error. */
  method RecvSnap(r: Receiver, chunks: seq<seq<byte>>) returns (ok: bool)
    requires r.Valid() && Concat(r.files) == []
    modifies r
    ensures r.Valid()
    ensures ok <==> (forall i :: 0 <= i < |chunks| ==> chunks[i] != []) && |Concat(chunks)| <= Sum(r.sizes)
    ensures ok ==> r.files == Cut(r.sizes, Concat(chunks))
  {
    for i := 0 to |chunks|
      invariant r.Valid() && Concat(r.files) == Concat(chunks[..i])
      invariant forall j :: 0 <= j < i ==> chunks[j] != []
    {
      if chunks[i] == [] {
        return false;
      }
      var n := r.Write(chunks[i]);
      NextPrefix(chunks, i);
      if n != |chunks[i]| {
        return false;
      }
    }
    assert chunks[..|chunks|] == chunks;
    r.FilesAreCut();
    return true;
  }

  lemma NextPrefix(chunks: seq<seq<byte>>, i: nat)
    requires i < |chunks|
    ensures Concat(chunks[..i + 1]) == Concat(chunks[..i]) + chunks[i]
    ensures chunks[i][..|chunks[i]|] == chunks[i]
    ensures |Concat(chunks[..i])| + |chunks[i]| <= |Concat(chunks)|
  {
    assert chunks[..i + 1] == chunks[..i] + [chunks[i]];
    ConcatSnoc(chunks[..i], chunks[i]);
    ConcatPrefix(chunks, i + 1);
  }

  lemma {:induction false} ConcatPrefix(files: seq<seq<byte>>, i: nat)
    requires i <= |files|
    ensures |Concat(files[..i])| <= |Concat(files)|
  {
    if i > 0 {
      assert files[..i][1..] == files[1..][..i - 1];
      ConcatPrefix(files[1..], i - 1);
    }
  }

  /** A receiver with the sender's sizes ends up with the sender's files, however the stream was
      read and chunked. */
  method Transfer(s: Sender, r: Receiver) returns (ok: bool)
    requires s.Valid() && s.Left() == Concat(s.files)
    requires r.Valid() && r.sizes == s.sizes && Concat(r.files) == []
    modifies s, r
    ensures ok && r.files == s.files
  {
    var chunks := SendSnap(s);
    CutConcat(s.files);
    ok := RecvSnap(r, chunks);
  }
}
