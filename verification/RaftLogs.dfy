/** RaftLog (raft/log.go): the in-memory log over a storage, with its commit, apply and
    persistence marks. Compaction is not implemented by the source, so the log starts at index 1. */
module RaftLogs {
  import opened RaftTypes
  import S = RaftStorage

  datatype TermResult = Known(term: nat) | Unavailable

  datatype RaftLog = RaftLog(
    storage: seq<Entry>,
    committed: nat,
    applied: nat,
    stabled: nat,
    entries: seq<Entry>)
  {
    /** What every operation keeps, for any message: an uncompacted log whose persisted part is
        what storage holds. */
    ghost predicate Wf() {
      && S.Contiguous(storage) && storage[0] == Entry(0, 0, [])
      && Numbered(entries, 0)
      && stabled <= |entries|
      && stabled < |storage|
      && storage[1..stabled + 1] == entries[..stabled]
    }

    /** What holds besides in every reachable state: the marks are in order. */
    ghost predicate Ok() {
      Wf() && applied <= committed <= |entries|
    }

    function LastIndex(): nat {
      if |entries| > 0 then entries[|entries| - 1].index else stabled
    }

    function Term(i: nat): TermResult
      requires Wf()
    {
      if i > LastIndex() then Unavailable
      else if |entries| > 0 && i >= entries[0].index then Known(entries[i - entries[0].index].term)
      else match S.TermOf(storage, i)
        case Ok(t) => Known(t)
        case Err(_) => Unavailable
    }

    /** `term, _ := l.Term(i)`: an error leaves the zero term. */
    function TermOrZero(i: nat): nat
      requires Wf()
    {
      match Term(i)
      case Known(t) => t
      case Unavailable => 0
    }

    function UnstableEntries(): seq<Entry>
      requires Wf()
    {
      if |entries| == 0 then []
      else
        var firstIdx := entries[0].index;
        var lastIdx := entries[|entries| - 1].index;
        if stabled >= lastIdx then []
        else if stabled < firstIdx then entries
        else entries[stabled - firstIdx + 1..]
    }

    function NextEnts(): seq<Entry>
      requires Ok()
    {
      if |entries| == 0 then []
      else
        var firstIdx := entries[0].index;
        var start := if applied + 1 <= firstIdx then firstIdx else applied + 1;
        if start > committed then []
        else entries[start - firstIdx..committed - firstIdx + 1]
    }

    /** The queries by position: the last index is the length, `Term` answers exactly for 0..last,
        the unstable entries are those above `stabled`, and the entries to apply are exactly
        those in (applied, committed]. */
    lemma Views(i: nat)
      requires Wf()
      ensures LastIndex() == |entries|
      ensures i <= |entries| ==> Term(i) == Known(TermAt(entries, i))
      ensures i > |entries| ==> Term(i) == Unavailable
      ensures UnstableEntries() == entries[stabled..]
      ensures Ok() ==> NextEnts() == entries[applied..committed]
    {
      if |entries| > 0 {
        assert entries[0].index == 1;
        assert entries[|entries| - 1].index == |entries|;
      }
    }

    /** What the application does with a batch of updates: persist the unstable entries, then
        apply what is committed. */
    function Drain(): (r: RaftLog)
      requires Ok()
      ensures r.Ok() && r.entries == entries && r.committed == committed
      ensures r.stabled == |entries| && r.applied == committed
    {
      DrainAppendable();
      DrainOk();
      var batch := UnstableEntries();
      this.(storage := S.AppendTo(storage, batch), stabled := LastIndex(), applied := committed)
    }

    lemma DrainOk()
      requires Ok()
      ensures S.Appendable(storage, UnstableEntries()) && LastIndex() == |entries|
      ensures this.(storage := S.AppendTo(storage, UnstableEntries()), stabled := |entries|, applied := committed).Ok()
    {
      Views(0);
      DrainMatches();
      assert entries[..|entries|] == entries;
    }

    lemma DrainAppendable()
      requires Ok()
      ensures S.Appendable(storage, UnstableEntries())
    {
      Views(0);
      var batch := UnstableEntries();
      if batch != [] {
        assert forall k :: 0 <= k < |batch| ==> batch[k] == entries[stabled + k];
      }
    }

    lemma DrainMatches()
      requires Ok()
      ensures S.Appendable(storage, UnstableEntries())
      ensures var r := S.AppendTo(storage, UnstableEntries());
              && |r| > |entries| && r[1..|entries| + 1] == entries
              && (stabled < |entries| ==> |r| == |entries| + 1)
    {
      Views(0);
      DrainAppendable();
      var batch := UnstableEntries();
      var r := S.AppendTo(storage, batch);
      if batch == [] {
        assert entries[..stabled] == entries;
      } else {
        assert batch[0] == entries[stabled] && S.Last(batch) == |entries|;
        S.AppendSplices(storage, batch);
        assert S.Kept(storage, batch) == batch;
        DrainedIs(storage, entries, stabled);
      }
    }
  }

  lemma DrainedIs(storage: seq<Entry>, entries: seq<Entry>, stabled: nat)
    requires stabled < |storage| && stabled <= |entries| && storage[1..stabled + 1] == entries[..stabled]
    ensures var r := storage[..stabled + 1] + entries[stabled..];
            |r| == |entries| + 1 && r[1..|entries| + 1] == entries
  {
    var r := storage[..stabled + 1] + entries[stabled..];
    assert r[1..|entries| + 1] == storage[1..stabled + 1] + entries[stabled..];
    assert entries == entries[..stabled] + entries[stabled..];
  }

  /** What a storage that was never compacted holds: the dummy entry, and a log from index 1 on. */
  predicate Uncompacted(storage: seq<Entry>) {
    S.Contiguous(storage) && storage[0] == Entry(0, 0, [])
  }

  lemma NewLogOk(storage: seq<Entry>, l: RaftLog)
    requires S.Contiguous(storage)
    requires l == RaftLog(storage, storage[0].index, storage[0].index, S.Last(storage), storage[1..])
    ensures l.LastIndex() == S.Last(storage)
    ensures Uncompacted(storage) ==> l.Ok() && l.UnstableEntries() == []
  {
    if Uncompacted(storage) {
      assert storage[1..S.Last(storage) + 1] == storage[1..];
      assert storage[1..][..S.Last(storage)] == storage[1..];
      l.Views(0);
    }
  }

  /** newLog: all that storage holds, nothing committed or applied above what it has compacted. */
  function NewLog(storage: seq<Entry>): (l: RaftLog)
    requires S.Contiguous(storage)
    ensures l.storage == storage && l.LastIndex() == l.stabled == S.Last(storage)
    ensures l.committed == l.applied == storage[0].index && |l.entries| == S.Last(storage) - storage[0].index
    ensures forall i: nat :: storage[0].index < i <= S.Last(storage) ==>
              S.At(storage, i) == S.Ok(l.entries[i - storage[0].index - 1])
    ensures Uncompacted(storage) ==> l.Ok() && l.entries == storage[1..] && l.UnstableEntries() == []
  {
    var firstIndex, lastIndex := storage[0].index + 1, S.Last(storage);
    var l := RaftLog(storage, firstIndex - 1, firstIndex - 1, lastIndex, storage[1..]);
    NewLogOk(storage, l);
    l
  }
}
