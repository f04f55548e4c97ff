/** The Raft object (raft/raft.go) as the source writes it: methods that update the fields in
    place and loop over peers and entries. Each is proved to make the transition RaftNode gives,
    and to queue exactly the messages that transition sends, in whatever order the source's map
    iteration visits the peers. */
module RaftImpl {
  import opened RaftTypes
  import opened RaftLogs
  import N = RaftNode
  import S = RaftStorage
  import opened RaftStatistics

  /** `after` is `before` followed by the messages of `sent`, each once. */
  ghost predicate Queued(before: seq<Message>, after: seq<Message>, sent: set<Message>) {
    && before <= after
    && multiset(after[|before|..]) == multiset(sent)
  }

  lemma QueuedNothing(before: seq<Message>)
    ensures Queued(before, before, {})
  {
    assert before[|before|..] == [];
  }

  lemma QueuedMore(before: seq<Message>, mid: seq<Message>, after: seq<Message>, s: set<Message>, t: set<Message>)
    requires Queued(before, mid, s) && Queued(mid, after, t) && s !! t
    ensures Queued(before, after, s + t)
  {
    assert after[|before|..] == mid[|before|..] + after[|mid|..];
    assert multiset(s + t) == multiset(s) + multiset(t);
  }

  lemma QueuedOne(before: seq<Message>, m: Message)
    ensures Queued(before, before + [m], {m})
  {
    assert (before + [m])[|before|..] == [m];
  }

  /** The appends a node has for the peers in `qs`. */
  ghost function AppendsTo(n: N.Node, qs: set<Id>): set<Message>
    requires n.Wf()
  {
    set q | q in n.prs && q in qs && q != n.id && N.CanAppend(n, q) :: N.AppendTo(n, q)
  }

  lemma OneMoreAppend(n: N.Node, qs: set<Id>, q: Id)
    requires n.Wf() && q in n.prs && q !in qs
    ensures q == n.id ==> AppendsTo(n, qs + {q}) == AppendsTo(n, qs)
    ensures q != n.id ==> AppendsTo(n, qs + {q}) == AppendsTo(n, qs) + N.SendAppend(n, q)
    ensures q != n.id ==> AppendsTo(n, qs) !! N.SendAppend(n, q)
  {
    forall m | m in AppendsTo(n, qs + {q}) ensures m in AppendsTo(n, qs) || m in N.SendAppend(n, q) {
      var r :| r in n.prs && r in qs + {q} && r != n.id && N.CanAppend(n, r) && m == N.AppendTo(n, r);
      assert r == q || r in qs;
    }
  }

  class Raft {
    const id: Id
    var term: nat
    var vote: Id
    var raftLog: RaftLog
    var prs: map<Id, Progress>
    var role: Role
    var votes: map<Id, bool>
    var lead: Id
    var msgs: seq<Message>

    ghost function Value(): N.Node
      reads this
    {
      N.Node(id, term, vote, raftLog, prs, role, votes, lead)
    }

    ghost predicate Valid()
      reads this
    {
      Value().Wf()
    }

    /** newRaft: the node kept in a storage. */
    constructor (id: Id, peers: set<Id>, storage: seq<Entry>, hardState: N.HardState)
      requires id in peers && S.Contiguous(storage)
      ensures Value() == N.Restored(id, peers, storage, hardState) && msgs == []
      ensures Uncompacted(storage) ==> Valid()
    {
      this.id := id;
      term, vote := hardState.term, hardState.vote;
      raftLog := NewLog(storage).(committed := hardState.commit);
      prs := map q | q in peers :: Progress(0, 1);
      role, votes, lead, msgs := Follower, map[], NONE, [];
    }

    method Queue(m: Message)
      modifies this`msgs
      ensures Queued(old(msgs), msgs, {m})
    {
      QueuedOne(msgs, m);
      msgs := msgs + [m];
    }

    /** Copies of the entries from index `next` on. */
    method EntriesFrom(next: nat) returns (entries: seq<Entry>)
      requires raftLog.Wf() && 0 < next <= |raftLog.entries| + 1
      ensures entries == raftLog.entries[next - 1..]
    {
      raftLog.Views(next - 1);
      var lastIndex := raftLog.LastIndex();
      entries := [];
      var i := next;
      while i <= lastIndex
        invariant next <= i <= lastIndex + 1
        invariant entries == raftLog.entries[next - 1..i - 1]
      {
        var idx := i - raftLog.entries[0].index;
        var e := raftLog.entries[idx];
        entries := entries + [Entry(e.index, e.term, e.data)];
        i := i + 1;
      }
      assert entries == raftLog.entries[next - 1..];
    }

    method SendAppend(to: Id) returns (sent: bool)
      requires Valid() && to in prs
      modifies this`msgs
      ensures sent == N.CanAppend(Value(), to)
      ensures Queued(old(msgs), msgs, N.SendAppend(Value(), to))
    {
      QueuedNothing(msgs);
      var pr := prs[to];
      if pr.next == 0 {
        // the predecessor wraps to the largest uint64, past every index, and has no term
        return false;
      }
      var prevLogIndex := pr.next - 1;
      raftLog.Views(prevLogIndex);
      var prevLogTerm := raftLog.Term(prevLogIndex);
      if prevLogTerm.Unavailable? {
        return false;
      }
      var entries := EntriesFrom(pr.next);
      assert Append(to, id, term, prevLogIndex, prevLogTerm.term, entries, raftLog.committed) == N.AppendTo(Value(), to);
      Queue(Append(to, id, term, prevLogIndex, prevLogTerm.term, entries, raftLog.committed));
      return true;
    }

    /** The loop that calls sendAppend for every other peer. */
    method BroadcastAppend()
      requires Valid()
      modifies this`msgs
      ensures Queued(old(msgs), msgs, N.BroadcastAppend(Value()))
    {
      QueuedNothing(msgs);
      ghost var n := Value();
      ghost var done: set<Id> := {};
      assert AppendsTo(n, done) == {};
      var rest := prs.Keys;
      while rest != {}
        invariant Value() == n && rest <= n.prs.Keys && done == n.prs.Keys - rest
        invariant Queued(old(msgs), msgs, AppendsTo(n, done))
        decreases rest
      {
        var q :| q in rest;
        rest := rest - {q};
        OneMoreAppend(n, done, q);
        if q != id {
          ghost var before := msgs;
          var _ := SendAppend(q);
          QueuedMore(old(msgs), before, msgs, AppendsTo(n, done), N.SendAppend(n, q));
        }
        done := done + {q};
      }
      assert AppendsTo(n, done) == N.BroadcastAppend(n);
    }

    method BroadcastHeartbeat()
      requires Valid()
      modifies this`msgs
      ensures Queued(old(msgs), msgs, N.BroadcastHeartbeat(Value()))
    {
      QueuedNothing(msgs);
      var rest := prs.Keys;
      ghost var done: set<Message> := {};
      while rest != {}
        invariant rest <= prs.Keys
        invariant done == set q | q in prs && q !in rest && q != id :: Heartbeat(q, id, term, raftLog.committed)
        invariant Queued(old(msgs), msgs, done)
        decreases rest
      {
        var q :| q in rest;
        rest := rest - {q};
        if q != id {
          ghost var before := msgs;
          var m := Heartbeat(q, id, term, raftLog.committed);
          Queue(m);
          QueuedMore(old(msgs), before, msgs, done, {m});
          done := done + {m};
        }
      }
    }

    method BecomeFollower(newTerm: nat, newLead: Id)
      modifies this
      ensures Value() == N.BecomeFollower(old(Value()), newTerm, newLead) && msgs == old(msgs)
    {
      role := Follower;
      if term < newTerm {
        term := newTerm;
        vote := NONE;
      }
      lead := newLead;
      votes := map[];
    }

    /** The loop that resets the progress of every peer. */
    method ResetProgress(next: nat)
      modifies this`prs
      ensures prs == map q | q in old(prs) :: Progress(0, next)
    {
      var rest := prs.Keys;
      while rest != {}
        invariant rest <= prs.Keys == old(prs).Keys
        invariant forall q :: q in prs && q !in rest ==> prs[q] == Progress(0, next)
        decreases rest
      {
        var q :| q in rest;
        rest := rest - {q};
        prs := prs[q := Progress(0, next)];
      }
    }

    /** The fields of a new leader, with its no-op appended. */
    method AssumeLeadership()
      requires Valid()
      modifies this`role, this`lead, this`vote, this`votes, this`prs, this`raftLog
      ensures Value() == N.LeaderState(old(Value()))
    {
      role := Leader;
      lead := id;
      vote := NONE;
      votes := map[];
      raftLog.Views(0);
      ResetProgress(raftLog.LastIndex() + 1);
      var noop := Entry(raftLog.LastIndex() + 1, term, []);
      raftLog := raftLog.(entries := raftLog.entries + [noop]);
      prs := prs[id := Progress(noop.index, noop.index + 1)];
      assert prs == N.LeaderState(old(Value())).prs;
    }

    method BecomeLeader()
      requires Valid()
      modifies this
      ensures Valid()
      ensures Value() == N.BecomeLeader(old(Value())).node
      ensures Queued(old(msgs), msgs, N.BecomeLeader(old(Value())).sent)
    {
      QueuedNothing(msgs);
      raftLog.Views(0);
      AssumeLeadership();
      raftLog.Views(0);
      assert prs.Keys == old(prs).Keys;
      assert |prs| == |prs.Keys| == |old(prs)|;
      if |prs| == 1 {
        raftLog := raftLog.(committed := raftLog.LastIndex());
      } else {
        BroadcastAppend();
      }
    }

    method BecomeCandidate()
      requires Valid()
      modifies this
      ensures Valid()
      ensures Value() == N.BecomeCandidate(old(Value())).node
      ensures Queued(old(msgs), msgs, N.BecomeCandidate(old(Value())).sent)
    {
      QueuedNothing(msgs);
      role := Candidate;
      term := term + 1;
      lead := NONE;
      vote := id;
      votes := map[];
      votes := votes[id := true];
      if |prs| == 1 {
        BecomeLeader();
      }
    }

    /** MsgHup at a follower or candidate. */
    method Campaign()
      requires Valid()
      modifies this
      ensures Valid()
      ensures Value() == N.Campaign(old(Value())).node
      ensures Queued(old(msgs), msgs, N.Campaign(old(Value())).sent)
    {
      BecomeCandidate();
      if role != Candidate {
        return;
      }
      var lastIndex := raftLog.LastIndex();
      var lastTerm := raftLog.TermOrZero(lastIndex);
      assert Queued(old(msgs), msgs, {});
      ghost var done: set<Message> := {};
      var rest := prs.Keys;
      while rest != {}
        invariant rest <= prs.Keys
        invariant done == set q | q in prs && q !in rest && q != id :: RequestVote(q, id, term, lastIndex, lastTerm)
        invariant Queued(old(msgs), msgs, done)
        invariant Value() == N.BecomeCandidate(old(Value())).node
        decreases rest
      {
        var q :| q in rest;
        rest := rest - {q};
        if q == id {
          continue;
        }
        ghost var before := msgs;
        var m := RequestVote(q, id, term, lastIndex, lastTerm);
        Queue(m);
        QueuedMore(old(msgs), before, msgs, done, {m});
        done := done + {m};
      }
      assert done == N.BroadcastVoteRequest(Value());
    }

    method HandleVoteRequest(m: Message)
      requires Valid() && m.RequestVote?
      modifies this
      ensures Valid()
      ensures Value() == N.HandleVoteRequest(old(Value()), m).node
      ensures Queued(old(msgs), msgs, N.HandleVoteRequest(old(Value()), m).sent)
    {
      var reject := false;
      if vote != NONE && vote != m.from {
        reject := true;
      }
      if !reject {
        var lastIndex := raftLog.LastIndex();
        var lastTerm := raftLog.TermOrZero(lastIndex);
        if m.logTerm < lastTerm {
          reject := true;
        } else if m.logTerm == lastTerm && m.index < lastIndex {
          reject := true;
        }
      }
      if !reject {
        vote := m.from;
      }
      Queue(RequestVoteResponse(m.from, id, term, reject));
    }

    method HandleVoteResponse(m: Message)
      requires Valid() && m.RequestVoteResponse?
      modifies this
      ensures Valid()
      ensures Value() == N.HandleVoteResponse(old(Value()), m).node
      ensures Queued(old(msgs), msgs, N.HandleVoteResponse(old(Value()), m).sent)
    {
      QueuedNothing(msgs);
      votes := votes[m.from := !m.reject];
      var granted, rejected := CountVotes();
      if granted > |prs| / 2 {
        BecomeLeader();
      } else if rejected > |prs| / 2 {
        BecomeFollower(term, NONE);
      }
    }

    method CountVotes() returns (granted: nat, rejected: nat)
      ensures granted == |N.Granted(votes)| && rejected == |N.Refused(votes)|
    {
      granted, rejected := 0, 0;
      var rest := votes.Keys;
      ghost var yes: set<Id>, no: set<Id> := {}, {};
      while rest != {}
        invariant rest <= votes.Keys
        invariant yes == set q | q in votes && q !in rest && votes[q]
        invariant no == set q | q in votes && q !in rest && !votes[q]
        invariant granted == |yes| && rejected == |no|
        decreases rest
      {
        var q :| q in rest;
        rest := rest - {q};
        if votes[q] {
          granted := granted + 1;
          yes := yes + {q};
        } else {
          rejected := rejected + 1;
          no := no + {q};
        }
      }
      assert yes == N.Granted(votes) && no == N.Refused(votes);
    }

    method HandleHeartbeat(m: Message)
      requires m.Heartbeat?
      modifies this
      ensures Value() == N.HandleHeartbeat(old(Value()), m).node
      ensures Queued(old(msgs), msgs, N.HandleHeartbeat(old(Value()), m).sent)
    {
      lead := m.from;
      Queue(HeartbeatResponse(m.from, id, term));
    }

    /** The conflict loop: cut at the first entry of another term, append what is missing. */
    method MergeEntries(entries: seq<Entry>, ghost start: nat)
      requires raftLog.Wf() && Numbered(entries, start) && start <= |raftLog.entries|
      modifies this`raftLog
      ensures raftLog == N.Merge(old(raftLog), entries, start)
    {
      for i := 0 to |entries|
        invariant raftLog.Wf() && start + i <= |raftLog.entries|
        invariant N.MergeFrom(raftLog, entries, start, i) == N.Merge(old(raftLog), entries, start)
      {
        MergeEntry(entries[i]);
      }
    }

    method MergeEntry(e: Entry)
      requires raftLog.Wf() && 1 <= e.index <= |raftLog.entries| + 1
      modifies this`raftLog
      ensures raftLog == N.MergeOne(old(raftLog), e)
    {
      raftLog.Views(e.index);
      if e.index <= raftLog.LastIndex() {
        var localTerm := raftLog.TermOrZero(e.index);
        if localTerm != e.term {
          if e.index <= raftLog.stabled {
            raftLog := raftLog.(stabled := e.index - 1);
          }
          var firstIndex := raftLog.entries[0].index;
          raftLog := raftLog.(entries := raftLog.entries[..e.index - firstIndex]);
          raftLog := raftLog.(entries := raftLog.entries + [e]);
        }
      } else {
        raftLog := raftLog.(entries := raftLog.entries + [e]);
      }
    }

    method HandleAppendEntries(m: Message)
      requires Valid() && m.Append? && N.WfMessage(Value(), m)
      modifies this
      ensures Valid()
      ensures Value() == N.HandleAppend(old(Value()), m).node
      ensures Queued(old(msgs), msgs, N.HandleAppend(old(Value()), m).sent)
    {
      raftLog.Views(m.index);
      if m.index > raftLog.LastIndex() {
        Queue(AppendResponse(m.from, id, term, true, raftLog.LastIndex() + 1));
        return;
      }
      var localTerm := raftLog.TermOrZero(m.index);
      if localTerm != m.logTerm {
        Queue(AppendResponse(m.from, id, term, true, 0));
        return;
      }
      MergeEntries(m.entries, m.index);
      RaiseCommit(m);
    }

    /** Log merged: raise the commit mark and acknowledge. */
    method RaiseCommit(m: Message)
      requires Valid() && m.Append?
      modifies this
      ensures Valid()
      ensures Value() == N.Accept(old(Value()), m, old(raftLog)).node
      ensures Queued(old(msgs), msgs, N.Accept(old(Value()), m, old(raftLog)).sent)
    {
      var lastNewIndex := m.index + |m.entries|;
      if m.commit > raftLog.committed {
        raftLog := raftLog.(committed := Min(m.commit, lastNewIndex));
      }
      Queue(AppendResponse(m.from, id, term, false, lastNewIndex));
    }

    method HandlePropose(payload: seq<Data>)
      requires Valid()
      modifies this
      ensures Valid()
      ensures Value() == N.HandlePropose(old(Value()), payload).node
      ensures Queued(old(msgs), msgs, N.HandlePropose(old(Value()), payload).sent)
    {
      AppendProposed(payload);
      assert prs.Keys == old(prs).Keys;
      assert |prs| == |prs.Keys| == |old(prs).Keys|;
      PublishLog();
    }

    /** Number the proposed entries, append them, and update the node's own progress. */
    method AppendProposed(payload: seq<Data>)
      requires Valid()
      modifies this`raftLog, this`prs
      ensures Valid() && Value() == N.ProposeState(old(Value()), payload)
    {
      raftLog.Views(0);
      NumberEntries(payload);
      var last := raftLog.LastIndex();
      prs := prs[id := Progress(last, last + 1)];
    }

    method NumberEntries(payload: seq<Data>)
      requires raftLog.Wf()
      modifies this`raftLog
      ensures raftLog == old(raftLog).(entries := old(raftLog).entries + N.Proposed(payload, old(raftLog).LastIndex(), term))
    {
      var lastIndex := raftLog.LastIndex();
      ghost var all := N.Proposed(payload, lastIndex, term);
      for i := 0 to |payload|
        invariant lastIndex == old(raftLog).LastIndex() + i
        invariant raftLog == old(raftLog).(entries := old(raftLog).entries + all[..i])
      {
        raftLog := raftLog.(entries := raftLog.entries + [Entry(lastIndex + 1, term, payload[i])]);
        assert all[..i + 1] == all[..i] + [Entry(lastIndex + 1, term, payload[i])];
        lastIndex := lastIndex + 1;
      }
      assert all[..|payload|] == all;
    }

    /** A single node commits its log at once; others send it. */
    method PublishLog()
      requires Valid()
      modifies this`raftLog, this`msgs
      ensures Valid()
      ensures Value() == if |prs| == 1 then old(Value()).(log := old(raftLog).(committed := old(raftLog).LastIndex())) else old(Value())
      ensures Queued(old(msgs), msgs, if |prs| == 1 then {} else N.BroadcastAppend(old(Value())))
    {
      QueuedNothing(msgs);
      if |prs| == 1 {
        raftLog := raftLog.(committed := raftLog.LastIndex());
      } else {
        BroadcastAppend();
      }
    }

    method HandleRejected(m: Message)
      requires Valid() && m.AppendResponse? && m.from in prs
      modifies this
      ensures Valid()
      ensures Value() == N.HandleRejected(old(Value()), m).node
      ensures Queued(old(msgs), msgs, N.HandleRejected(old(Value()), m).sent)
    {
      var pr := prs[m.from];
      prs := prs[m.from := pr.(next := if pr.next == 0 then MAX_UINT64 else pr.next - 1)];
      var _ := SendAppend(m.from);
    }

    /** Collect the Match values in any order, sort them, and take the middle one. */
    method MedianMatch() returns (newCommit: nat)
      requires Valid() && |prs| >= 1
      ensures newCommit == N.Median(prs)
    {
      var matches: seq<nat> := [];
      ghost var ids: seq<Id> := [];
      var rest := prs.Keys;
      while rest != {}
        invariant rest <= prs.Keys
        invariant Tagged(prs, matches, ids)
        invariant forall q :: q in ids <==> q in prs && q !in rest
        decreases rest
      {
        var q :| q in rest;
        rest := rest - {q};
        matches := matches + [prs[q].match_];
        ids := ids + [q];
      }
      var sorted: seq<nat>;
      ghost var order: seq<Id>;
      sorted, order := SortMatches(prs, matches, ids);
      TaggedLength(prs, sorted, order);
      newCommit := sorted[(|sorted| - 1) / 2];
      SortedOrderStatistic(prs, sorted, order, (|sorted| - 1) / 2);
      N.OrderStatisticUnique(prs, (|prs| - 1) / 2, newCommit, N.Median(prs));
    }

    method HandleAcknowledged(m: Message)
      requires Valid() && m.AppendResponse? && m.from in prs
      modifies this
      ensures Valid()
      ensures Value() == N.HandleAcknowledged(old(Value()), m).node
      ensures Queued(old(msgs), msgs, N.HandleAcknowledged(old(Value()), m).sent)
    {
      QueuedNothing(msgs);
      prs := prs[m.from := Progress(m.index, m.index + 1)];
      ghost var n1 := N.Recorded(old(Value()), m);
      assert Value() == n1;
      var newCommit := MedianMatch();
      if newCommit > raftLog.committed {
        var t := raftLog.TermOrZero(newCommit);
        if t == term {
          raftLog := raftLog.(committed := newCommit);
          BroadcastAppend();
        }
      }
    }

    method StepFollower(m: Message)
      requires Valid() && N.WfMessage(Value(), m)
      modifies this
      ensures Valid()
      ensures Value() == N.StepFollower(old(Value()), m).node
      ensures Queued(old(msgs), msgs, N.StepFollower(old(Value()), m).sent)
    {
      QueuedNothing(msgs);
      match m
      case Hup => Campaign();
      case RequestVote(_, _, _, _, _) => HandleVoteRequest(m);
      case Heartbeat(_, _, _, _) => HandleHeartbeat(m);
      case Append(_, from, _, _, _, _, _) =>
        lead := from;
        HandleAppendEntries(m);
      case _ =>
    }

    method StepCandidate(m: Message)
      requires Valid() && N.WfMessage(Value(), m)
      modifies this
      ensures Valid()
      ensures Value() == N.StepCandidate(old(Value()), m).node
      ensures Queued(old(msgs), msgs, N.StepCandidate(old(Value()), m).sent)
    {
      QueuedNothing(msgs);
      match m
      case Hup => Campaign();
      case RequestVote(_, from, _, _, _) =>
        if from != id {
          Queue(RequestVoteResponse(from, id, term, true));
        }
      case RequestVoteResponse(_, _, _, _) => HandleVoteResponse(m);
      case Heartbeat(_, from, newTerm, _) =>
        BecomeFollower(newTerm, from);
        HandleHeartbeat(m);
      case Append(_, from, newTerm, _, _, _, _) => BecomeFollower(newTerm, from);
      case _ =>
    }

    method StepLeader(m: Message)
      requires Valid() && N.WfMessage(Value(), m)
      modifies this
      ensures Valid()
      ensures Value() == N.StepLeader(old(Value()), m).node
      ensures Queued(old(msgs), msgs, N.StepLeader(old(Value()), m).sent)
    {
      QueuedNothing(msgs);
      match m
      case Beat => BroadcastHeartbeat();
      case RequestVote(_, from, _, _, _) => Queue(RequestVoteResponse(from, id, term, true));
      case Heartbeat(_, from, newTerm, _) =>
        BecomeFollower(newTerm, from);
        HandleHeartbeat(m);
      case HeartbeatResponse(_, from, _) =>
        if prs[from].next <= raftLog.LastIndex() {
          var _ := SendAppend(from);
        }
      case Propose(payload) => HandlePropose(payload);
      case AppendResponse(_, _, _, reject, _) =>
        if reject {
          HandleRejected(m);
        } else {
          HandleAcknowledged(m);
        }
      case Append(_, from, newTerm, _, _, _, _) =>
        BecomeFollower(newTerm, from);
        HandleAppendEntries(m);
      case _ =>
    }

    /** The entry point: the object makes exactly the transition of the node it stands for. */
    method Step(m: Message)
      requires Valid() && N.WfMessage(Value(), m)
      modifies this
      ensures Valid()
      ensures Value() == N.Step(old(Value()), m).node
      ensures Queued(old(msgs), msgs, N.Step(old(Value()), m).sent)
    {
      QueuedNothing(msgs);
      if !m.Local() {
        if m.term > term {
          BecomeFollower(m.term, NONE);
        } else if m.term < term {
          return;
        }
      }
      match role
      case Follower => StepFollower(m);
      case Candidate => StepCandidate(m);
      case Leader => StepLeader(m);
    }
  }
}
