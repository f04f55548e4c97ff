/** Backtracking: a leader and a follower exchanging appends and replies in order find the point
    up to which their logs agree, and the follower ends up with the leader's log (section 5.3). */
module RaftRepair {
  import opened RaftTypes
  import opened RaftLogs
  import opened RaftNode
  import opened RaftCluster
  import opened RaftInvariant
  import opened RaftSafety

  /** A leader about to send the suffix after `next - 1` to a follower in the same term, over logs
      that agree wherever they have an entry of the same term. */
  ghost predicate Paired(l: Node, f: Node) {
    && l.Wf() && f.Wf() && l.role == Leader && f.role == Follower && l.term == f.term
    && l.id in f.prs && f.id in l.prs && l.id != f.id
    && CanAppend(l, f.id)
    && Matching(f.log.entries, l.log.entries)
  }

  /** The follower's reply to the append the leader has for it. */
  ghost function Reply(l: Node, f: Node): Out
    requires Paired(l, f)
  {
    PairedWf(l, f);
    Step(f, AppendTo(l, f.id))
  }

  lemma PairedWf(l: Node, f: Node)
    requires Paired(l, f)
    ensures WfMessage(f, AppendTo(l, f.id))
  {
    l.log.Views(0);
  }

  lemma StepOnAppend(n: Node, m: Message)
    requires n.Wf() && WfMessage(n, m) && m.Append? && m.term == n.term && n.role == Follower
    ensures Step(n, m) == HandleAppend(n.(lead := m.from), m)
  {
  }

  ghost predicate Accepted(l: Node, f: Node)
    requires Paired(l, f)
  {
    AcceptsAppend(f, AppendTo(l, f.id))
  }

  /** Merging the rest of a log `ll` into one that agrees with it up to there leaves all of it. */
  lemma MergeRest(l: RaftLog, start: nat, ll: seq<Entry>)
    requires l.Wf() && start <= |l.entries| && start <= |ll| && Numbered(ll[start..], start)
    requires TermAt(l.entries, start) == TermAt(ll, start) && Matching(l.entries, ll)
    ensures ll <= Merge(l, ll[start..], start).entries
  {
    MergeMatching(l, start, ll);
  }

  lemma AcceptsThen(f: Node, m: Message)
    requires f.Wf() && m.Append? && WfMessage(f, m) && AcceptsAppend(f, m)
    ensures m.index <= |f.log.entries| && TermAt(f.log.entries, m.index) == m.logTerm
    ensures HandleAppend(f, m) == Accept(f, m, Merge(f.log, m.entries, m.index))
  {
    f.log.Views(m.index);
  }

  lemma AcceptSays(f: Node, m: Message, l: RaftLog, last: nat)
    requires m.Append? && last == m.index + |m.entries|
    ensures Accept(f, m, l).sent == {AppendResponse(m.from, f.id, f.term, false, last)}
    ensures Accept(f, m, l).node.log.entries == l.entries
    ensures m.commit <= last ==> Accept(f, m, l).node.log.committed >= m.commit
  {
  }

  /** Accepting the rest of a leader's log `ll` leaves the follower with all of it. */
  lemma AcceptRest(f: Node, m: Message, ll: seq<Entry>)
    requires f.Wf() && m.Append? && WfMessage(f, m) && AcceptsAppend(f, m)
    requires m.index <= |ll| && m.entries == ll[m.index..] && m.logTerm == TermAt(ll, m.index)
    requires Matching(f.log.entries, ll)
    ensures HandleAppend(f, m).sent == {AppendResponse(m.from, f.id, f.term, false, |ll|)}
    ensures ll <= HandleAppend(f, m).node.log.entries
    ensures m.commit <= |ll| ==> HandleAppend(f, m).node.log.committed >= m.commit
  {
    AcceptsThen(f, m);
    AcceptSays(f, m, Merge(f.log, m.entries, m.index), |ll|);
    MergeRest(f.log, m.index, ll);
  }

  lemma RejectRest(f: Node, m: Message)
    requires f.Wf() && m.Append? && WfMessage(f, m) && !AcceptsAppend(f, m) && (m.index == 0 ==> m.logTerm == 0)
    ensures m.index > 0
    ensures var last := f.log.LastIndex();
            HandleAppend(f, m) ==
            Out(f, {AppendResponse(m.from, f.id, f.term, true, if m.index > last then last + 1 else 0)})
  {
    f.log.Views(0);
  }

  /** An accepted round leaves the follower with the leader's log through its last index. */
  lemma AcceptedRound(l: Node, f: Node)
    requires Paired(l, f) && Accepted(l, f)
    ensures Reply(l, f).sent == {AppendResponse(l.id, f.id, f.term, false, |l.log.entries|)}
    ensures l.log.entries <= Reply(l, f).node.log.entries
    ensures l.log.Ok() ==> Reply(l, f).node.log.committed >= l.log.committed
  {
    PairedWf(l, f);
    l.log.Views(l.prs[f.id].next - 1);
    StepOnAppend(f, AppendTo(l, f.id));
    AcceptRest(f.(lead := l.id), AppendTo(l, f.id), l.log.entries);
  }

  /** The reject a follower sends. */
  ghost function Reject(l: Node, f: Node): Message
    requires Paired(l, f)
  {
    var last := f.log.LastIndex();
    AppendResponse(l.id, f.id, f.term, true, if l.prs[f.id].next - 1 > last then last + 1 else 0)
  }

  /** A rejected round leaves the follower's log alone, and there is an index to step back from. */
  lemma RejectedRound(l: Node, f: Node)
    requires Paired(l, f) && !Accepted(l, f)
    ensures Reply(l, f) == Out(f.(lead := l.id), {Reject(l, f)})
    ensures l.prs[f.id].next > 1
  {
    PairedWf(l, f);
    l.log.Views(l.prs[f.id].next - 1);
    StepOnAppend(f, AppendTo(l, f.id));
    RejectRest(f.(lead := l.id), AppendTo(l, f.id));
  }

  /** On the reject the leader steps back by one and sends again. */
  lemma StepBack(l: Node, f: Node)
    requires Paired(l, f) && !Accepted(l, f)
    ensures WfMessage(l, Reject(l, f))
    ensures var l' := Step(l, Reject(l, f)).node;
            && f.id in l'.prs && CanAppend(l', f.id)
            && Paired(l', Reply(l, f).node)
            && l'.log == l.log && l'.prs[f.id].next == l.prs[f.id].next - 1
            && Step(l, Reject(l, f)).sent == {AppendTo(l', f.id)}
  {
    RejectedRound(l, f);
    assert Step(l, Reject(l, f)) == HandleRejected(l, Reject(l, f));
  }

  /** The exchange, round after round: how many rejects it took, and the follower at the end. */
  ghost function Exchange(l: Node, f: Node): (r: (nat, Node))
    requires Paired(l, f)
    decreases l.prs[f.id].next
  {
    if Accepted(l, f) then (0, Reply(l, f).node)
    else
      RejectedRound(l, f);
      StepBack(l, f);
      var rest := Exchange(Step(l, Reject(l, f)).node, Reply(l, f).node);
      (rest.0 + 1, rest.1)
  }

  /** Backtracking terminates and repairs: after at most `next - 1` rejects the follower holds
      the leader's log through the leader's last index. */
  lemma {:induction false} ExchangeRepairs(l: Node, f: Node)
    requires Paired(l, f)
    ensures Exchange(l, f).0 <= l.prs[f.id].next - 1
    ensures l.log.entries <= Exchange(l, f).1.log.entries
    ensures l.log.Ok() ==> Exchange(l, f).1.log.committed >= l.log.committed
    decreases l.prs[f.id].next
  {
    if Accepted(l, f) {
      AcceptedRound(l, f);
    } else {
      RejectedRound(l, f);
      StepBack(l, f);
      ExchangeRepairs(Step(l, Reject(l, f)).node, Reply(l, f).node);
    }
  }

  /** In every state of every run, a leader and a follower of its term are such a pair exactly while
      the leader finds the term before `Next`. */
  lemma RunPaired(run: seq<Cluster>, acts: seq<Action>, peers: set<Id>, i: nat, p: Id, q: Id)
    requires IsRun(run, acts, peers) && i < |run| && p in run[i].nodes && q in run[i].nodes
    requires var l, f := run[i].nodes[p], run[i].nodes[q];
             l.role == Leader && f.role == Follower && l.term == f.term
    ensures q in run[i].nodes[p].prs
    ensures Paired(run[i].nodes[p], run[i].nodes[q]) <==> CanAppend(run[i].nodes[p], q)
  {
    var l, f := run[i].nodes[p], run[i].nodes[q];
    var hs := Explain(run, acts, peers);
    NodeAt(run, hs, i, p, i);
    NodeAt(run, hs, i, q, i);
    forall k | 0 <= k < |f.log.entries| && k < |l.log.entries| && f.log.entries[k].term == l.log.entries[k].term
      ensures f.log.entries[..k + 1] == l.log.entries[..k + 1]
    {
      LogMatching(run, acts, peers, i, q, i, p, k);
    }
  }
}
