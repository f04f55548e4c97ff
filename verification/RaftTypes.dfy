/** Entries, messages and progress records of the Raft core (raft/raft.go, eraftpb). */
module RaftTypes {
  type Id = nat
  type Data = seq<int>

  /** Placeholder node id: no vote, no leader. */
  const NONE: Id := 0

  /** 2^64 - 1, the largest uint64: what `Next--` wraps to from 0. */
  const MAX_UINT64: nat := 0xFFFF_FFFF_FFFF_FFFF

  /** A log entry as replicated: index, term and payload. */
  datatype Entry = Entry(index: nat, term: nat, data: Data)

  datatype Progress = Progress(match_: nat, next: nat)

  datatype Role = Follower | Candidate | Leader

  /** Messages handled by `Step`; the first three are local and carry no term. */
  datatype Message =
    | Hup
    | Beat
    | Propose(payload: seq<Data>)
    | Append(to: Id, from: Id, term: nat, index: nat, logTerm: nat, entries: seq<Entry>, commit: nat)
    | AppendResponse(to: Id, from: Id, term: nat, reject: bool, index: nat)
    | RequestVote(to: Id, from: Id, term: nat, index: nat, logTerm: nat)
    | RequestVoteResponse(to: Id, from: Id, term: nat, reject: bool)
    | Heartbeat(to: Id, from: Id, term: nat, commit: nat)
    | HeartbeatResponse(to: Id, from: Id, term: nat)
  {
    predicate Local() {
      Hup? || Beat? || Propose?
    }
  }

  /** Entries numbered start+1, start+2, ... */
  predicate Numbered(entries: seq<Entry>, start: nat) {
    forall i :: 0 <= i < |entries| ==> entries[i].index == start + i + 1
  }

  /** Term at a 1-based position of a log that starts at index 1; position 0 is the dummy entry. */
  function TermAt(log: seq<Entry>, i: nat): nat
    requires i <= |log|
  {
    if i == 0 then 0 else log[i - 1].term
  }

  function LastTerm(log: seq<Entry>): nat {
    TermAt(log, |log|)
  }

  function Min(a: nat, b: nat): nat {
    if a > b then b else a
  }
}
