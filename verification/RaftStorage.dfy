/** MemoryStorage (raft/storage.go): an in-memory log behind a dummy entry that keeps the
    index and term of the last compacted position. */
module RaftStorage {
  import opened RaftTypes

  datatype Snapshot = Snapshot(index: nat, term: nat)

  datatype Error = ErrCompacted | ErrSnapOutOfDate | ErrUnavailable

  datatype Result<+T> = Ok(value: T) | Err(error: Error)

  /** The list kept by the storage: never empty, and numbered without gaps. */
  predicate Contiguous(ents: seq<Entry>) {
    |ents| >= 1 && forall i :: 0 <= i < |ents| ==> ents[i].index == ents[0].index + i
  }

  function Last(ents: seq<Entry>): nat
    requires Contiguous(ents)
  {
    ents[0].index + |ents| - 1
  }

  /** The partial map from index to entry that a storage stands for. */
  function At(ents: seq<Entry>, i: nat): Result<Entry>
    requires Contiguous(ents)
  {
    if i <= ents[0].index then Err(ErrCompacted)
    else if i > Last(ents) then Err(ErrUnavailable)
    else Ok(ents[i - ents[0].index])
  }

  function TermOf(ents: seq<Entry>, i: nat): Result<nat>
    requires Contiguous(ents)
  {
    if i < ents[0].index then Err(ErrCompacted)
    else if i - ents[0].index >= |ents| then Err(ErrUnavailable)
    else Ok(ents[i - ents[0].index].term)
  }

  /** A batch `Append` accepts: numbered without gaps, and leaving no gap after the stored list. */
  predicate Appendable(ents: seq<Entry>, batch: seq<Entry>) {
    Contiguous(ents) && (batch != [] ==> Contiguous(batch) && batch[0].index <= Last(ents) + 1)
  }

  /** The part of a batch above the compacted position. */
  function Kept(ents: seq<Entry>, batch: seq<Entry>): seq<Entry>
    requires Appendable(ents, batch) && batch != [] && Last(batch) > ents[0].index
  {
    var first := ents[0].index + 1;
    if first > batch[0].index then batch[first - batch[0].index..] else batch
  }

  lemma KeptIs(ents: seq<Entry>, batch: seq<Entry>)
    requires Appendable(ents, batch) && batch != [] && Last(batch) > ents[0].index
    ensures var r := Kept(ents, batch);
            && Contiguous(r) && ents[0].index < r[0].index <= Last(ents) + 1 && Last(r) == Last(batch)
            && batch[0].index <= r[0].index && r == batch[r[0].index - batch[0].index..]
  {
  }

  function AppendTo(ents: seq<Entry>, batch: seq<Entry>): (r: seq<Entry>)
    requires Appendable(ents, batch)
    ensures Contiguous(r) && r[0] == ents[0]
  {
    if batch == [] || Last(batch) <= ents[0].index then ents
    else
      var kept := Kept(ents, batch);
      KeptIs(ents, batch);
      SpliceOk(ents, kept);
      ents[..kept[0].index - ents[0].index] + kept
  }

  lemma SpliceOk(ents: seq<Entry>, kept: seq<Entry>)
    requires Contiguous(ents) && Contiguous(kept) && ents[0].index < kept[0].index <= Last(ents) + 1
    ensures var r := ents[..kept[0].index - ents[0].index] + kept;
            Contiguous(r) && r[0] == ents[0] && Last(r) == Last(kept)
  {
  }

  /** Append keeps exactly the old entries below the batch and holds the batch from there on;
      entries of the batch at or below the compacted position are ignored. */
  lemma AppendView(ents: seq<Entry>, batch: seq<Entry>)
    requires Appendable(ents, batch)
    ensures batch == [] || Last(batch) <= ents[0].index ==> AppendTo(ents, batch) == ents
    ensures batch != [] && Last(batch) > ents[0].index ==>
              && Last(AppendTo(ents, batch)) == Last(batch)
              && forall i: nat :: At(AppendTo(ents, batch), i) ==
                                  if i <= ents[0].index then Err(ErrCompacted)
                                  else if i > Last(batch) then Err(ErrUnavailable)
                                  else if i < batch[0].index then At(ents, i)
                                  else Ok(batch[i - batch[0].index])
  {
    if batch != [] && Last(batch) > ents[0].index {
      AppendSplices(ents, batch);
      forall i: nat | ents[0].index < i <= Last(batch)
        ensures At(AppendTo(ents, batch), i) == if i < batch[0].index then At(ents, i) else Ok(batch[i - batch[0].index])
      {
        AppendedAt(ents, batch, i);
      }
    }
  }

  lemma AppendSplices(ents: seq<Entry>, batch: seq<Entry>)
    requires Appendable(ents, batch) && batch != [] && Last(batch) > ents[0].index
    ensures var kept := Kept(ents, batch);
            && Contiguous(kept) && ents[0].index < kept[0].index <= Last(ents) + 1
            && AppendTo(ents, batch) == ents[..kept[0].index - ents[0].index] + kept
    ensures Last(AppendTo(ents, batch)) == Last(batch)
  {
    KeptIs(ents, batch);
    SpliceOk(ents, Kept(ents, batch));
  }

  lemma AppendedAt(ents: seq<Entry>, batch: seq<Entry>, i: nat)
    requires Appendable(ents, batch) && batch != [] && ents[0].index < i <= Last(batch)
    ensures At(AppendTo(ents, batch), i) == if i < batch[0].index then At(ents, i) else Ok(batch[i - batch[0].index])
  {
    var kept := Kept(ents, batch);
    KeptIs(ents, batch);
    AppendSplices(ents, batch);
    SplicedAt(ents, kept, kept[0].index - ents[0].index, i - ents[0].index);
    if i >= kept[0].index {
      assert kept[i - kept[0].index] == batch[i - batch[0].index];
    }
  }

  lemma SplicedAt(ents: seq<Entry>, kept: seq<Entry>, cut: nat, k: nat)
    requires cut <= |ents| && k < cut + |kept|
    ensures (ents[..cut] + kept)[k] == if k < cut then ents[k] else kept[k - cut]
  {
  }

  function CompactTo(ents: seq<Entry>, index: nat): (r: seq<Entry>)
    requires Contiguous(ents) && ents[0].index < index <= Last(ents)
    ensures Contiguous(r)
  {
    var i := index - ents[0].index;
    [Entry(ents[i].index, ents[i].term, [])] + ents[i + 1..]
  }

  /** Compaction changes no answer above its index, and keeps the term at the index. */
  lemma CompactKeeps(ents: seq<Entry>, index: nat)
    requires Contiguous(ents) && ents[0].index < index <= Last(ents)
    ensures var r := CompactTo(ents, index);
            && Last(r) == Last(ents)
            && (forall i: nat :: At(r, i) == if i <= index then Err(ErrCompacted) else At(ents, i))
            && (forall i: nat :: TermOf(r, i) == if i < index then Err(ErrCompacted) else TermOf(ents, i))
  {
    var r := CompactTo(ents, index);
    var d := index - ents[0].index;
    assert forall k :: 1 <= k < |r| ==> r[k] == ents[k + d];
  }

  class MemoryStorage {
    var ents: seq<Entry>
    var snapshot: Snapshot

    ghost predicate Valid()
      reads this
    {
      Contiguous(ents)
    }

    constructor ()
      ensures Valid()
      ensures ents == [Entry(0, 0, [])] && snapshot == Snapshot(0, 0)
    {
      ents := [Entry(0, 0, [])];
      snapshot := Snapshot(0, 0);
    }

    /** The slice [lo, hi) of the stored entries; asking past the end is a panic of the source. */
    method Entries(lo: nat, hi: nat) returns (r: Result<seq<Entry>>)
      requires Valid()
      requires lo > ents[0].index ==> lo <= hi <= Last(ents) + 1
      ensures lo <= ents[0].index ==> r == Err(ErrCompacted)
      ensures lo > ents[0].index ==>
                && r.Ok? && |r.value| == hi - lo
                && forall i :: lo <= i < hi ==> At(ents, i) == Ok(r.value[i - lo])
    {
      var offset := ents[0].index;
      if lo <= offset {
        return Err(ErrCompacted);
      }
      var slice := ents[lo - offset..hi - offset];
      if |ents| == 1 && |slice| != 0 {
        return Err(ErrUnavailable);
      }
      return Ok(slice);
    }

    method Term(i: nat) returns (r: Result<nat>)
      requires Valid()
      ensures r == TermOf(ents, i)
      ensures At(ents, i).Ok? ==> r == Ok(At(ents, i).value.term)
    {
      var offset := ents[0].index;
      if i < offset {
        return Err(ErrCompacted);
      }
      if i - offset >= |ents| {
        return Err(ErrUnavailable);
      }
      return Ok(ents[i - offset].term);
    }

    method Append(batch: seq<Entry>)
      requires Valid() && Appendable(ents, batch)
      modifies this
      ensures Valid() && snapshot == old(snapshot)
      ensures ents == AppendTo(old(ents), batch)
    {
      if |batch| == 0 {
        return;
      }
      var first := ents[0].index + 1;
      var last := batch[0].index + |batch| - 1;
      if last < first {
        return;
      }
      var entries := batch;
      if first > entries[0].index {
        entries := entries[first - entries[0].index..];
      }
      assert entries == Kept(ents, batch);
      KeptIs(ents, batch);
      Splice(entries);
    }

    /** Overwrite from the first index of `entries` on. */
    method Splice(entries: seq<Entry>)
      requires Valid() && Contiguous(entries) && ents[0].index < entries[0].index <= Last(ents) + 1
      modifies this`ents
      ensures Valid() && ents == old(ents)[..entries[0].index - old(ents)[0].index] + entries
    {
      SpliceOk(ents, entries);
      var offset := entries[0].index - ents[0].index;
      if |ents| > offset {
        ents := ents[..offset] + entries;
      } else {
        assert ents[..offset] == ents;
        ents := ents + entries;
      }
    }

    method Compact(index: nat) returns (r: Result<()>)
      requires Valid()
      requires index <= Last(ents)
      modifies this
      ensures Valid() && snapshot == old(snapshot)
      ensures index <= old(ents)[0].index ==> r == Err(ErrCompacted) && ents == old(ents)
      ensures index > old(ents)[0].index ==> r == Ok(()) && ents == CompactTo(old(ents), index)
    {
      var offset := ents[0].index;
      if index <= offset {
        return Err(ErrCompacted);
      }
      var i := index - offset;
      var kept := [Entry(ents[i].index, ents[i].term, [])];
      ents := kept + ents[i + 1..];
      return Ok(());
    }

    method ApplySnapshot(snap: Snapshot) returns (r: Result<()>)
      requires Valid()
      modifies this
      ensures Valid()
      ensures old(snapshot).index >= snap.index ==>
                r == Err(ErrSnapOutOfDate) && ents == old(ents) && snapshot == old(snapshot)
      ensures old(snapshot).index < snap.index ==>
                && r == Ok(()) && snapshot == snap && (forall i: nat :: At(ents, i).Err?)
                && TermOf(ents, snap.index) == Ok(snap.term) && Last(ents) == snap.index
    {
      if snapshot.index >= snap.index {
        return Err(ErrSnapOutOfDate);
      }
      snapshot := snap;
      ents := [Entry(snap.index, snap.term, [])];
      return Ok(());
    }
  }
}
