/** The invariant that ties the nodes and messages of a cluster to its history, and the proof that
    each transition of a node keeps it. Nodes and messages are tied to the history only, never to
    each other, so a transition is checked for the acting node alone. */
module RaftInvariant {
  import opened RaftTypes
  import opened RaftLogs
  import opened RaftNode
  import opened RaftHistory

  // ---- the invariant -----------------------------------------------------------------------

  /** The first `c` entries of `log` are part of the chosen prefix `x`. */
  ghost predicate CommittedBy(h: History, log: seq<Entry>, c: nat, t: nat, x: Chosen) {
    && x.term <= t && c <= x.index && c <= |log|
    && x.term in h.terms && x.index <= |h.terms[x.term].log|
    && log[..c] == h.terms[x.term].log[..c]
  }

  ghost predicate CommitOk(h: History, log: seq<Entry>, c: nat, t: nat) {
    c == 0 || exists x :: x in h.chosen && CommittedBy(h, log, c, t, x)
  }

  /** Nothing is on record for node `p` in a term above `t`. */
  ghost predicate Untouched(h: History, p: Id, t: nat) {
    && (forall b :: b in h.votes && b.node == p ==> b.term <= t)
    && (forall b :: b in h.bids && b.node == p ==> b.term <= t)
    && (forall a :: a in h.acks && a.node == p ==> a.term <= t)
    && (forall s :: s in h.terms && h.terms[s].leader == p ==> s <= t)
  }

  ghost predicate LogPart(h: History, p: Id, n: Node) {
    var log := n.log.entries;
    && n.log.Ok()
    && LogOk(h, log)
    && TermsBelow(log, n.term + 1)
    && (forall a :: a in h.acks && a.node == p && AckOk(h, a) ==> Covers(h, log, a.term, a.index))
    && CommitOk(h, log, n.log.committed, n.term)
  }

  ghost predicate RolePart(h: History, p: Id, n: Node) {
    var b := Ballot(p, n.term);
    match n.role
    case Follower =>
      && (n.term in h.terms ==> h.terms[n.term].leader != p)
      && (if n.vote == NONE then b !in h.votes else b in h.votes && h.votes[b] == n.vote)
    case Candidate =>
      && (n.term in h.terms ==> h.terms[n.term].leader != p)
      && n.vote == p && b in h.votes && h.votes[b] == p
      && b in h.bids && h.bids[b] == n.log.entries
      && (forall q :: q in n.votes && n.votes[q] ==>
                        q in h.peers && Ballot(q, n.term) in h.votes && h.votes[Ballot(q, n.term)] == p)
    case Leader =>
      && n.term in h.terms && h.terms[n.term].leader == p
      && h.terms[n.term].log == n.log.entries
      && Ack(p, n.term, |n.log.entries|) in h.acks
      && (forall q :: q in n.prs ==> MatchOk(h, n, q))
  }

  /** A recorded Match is backed by an acknowledgement in the leader's term. */
  ghost predicate MatchOk(h: History, n: Node, q: Id)
    requires q in n.prs
  {
    n.prs[q].match_ == 0 || Ack(q, n.term, n.prs[q].match_) in h.acks
  }

  ghost predicate NodeOk(h: History, p: Id, n: Node) {
    && n.id == p && p in h.peers && p != NONE && n.prs.Keys == h.peers && NONE !in h.peers
    && Untouched(h, p, n.term)
    && LogPart(h, p, n)
    && RolePart(h, p, n)
  }

  ghost predicate AppendOk(h: History, m: Message)
    requires m.Append?
  {
    && m.term in h.terms && h.terms[m.term].leader == m.from && m.to != m.from
    && (var r := h.terms[m.term];
        var last := m.index + |m.entries|;
        && |r.init| < last <= |r.log|
        && m.entries == r.log[m.index..last]
        && m.logTerm == TermAt(r.log, m.index)
        && m.commit <= last
        && CommitOk(h, r.log, m.commit, m.term))
  }

  ghost predicate MsgOk(h: History, m: Message) {
    && !m.Local()
    && m.from in h.peers && m.to in h.peers
    && match m
       case RequestVote(_, from, term, index, logTerm) =>
         && Ballot(from, term) in h.bids
         && index == |h.bids[Ballot(from, term)]| && logTerm == LastTerm(h.bids[Ballot(from, term)])
       case RequestVoteResponse(to, from, term, reject) =>
         reject || (Ballot(from, term) in h.votes && h.votes[Ballot(from, term)] == to)
       case Append(_, _, _, _, _, _, _) => AppendOk(h, m)
       case AppendResponse(to, from, term, reject, index) =>
         to != from && (reject || Ack(from, term, index) in h.acks)
       case Heartbeat(to, from, term, _) =>
         term in h.terms && h.terms[term].leader == from && to != from
       case HeartbeatResponse(to, from, _) => to != from
  }

  // ---- growth by one actor -----------------------------------------------------------------

  /** History grows, and everything new in it concerns node `p`. */
  ghost predicate GrowsBy(h: History, h': History, p: Id) {
    && Grows(h, h')
    && (forall b :: b in h'.votes && b !in h.votes ==> b.node == p)
    && (forall b :: b in h'.bids && b !in h.bids ==> b.node == p)
    && (forall a :: a in h'.acks && a !in h.acks ==> a.node == p)
    && (forall t :: t in h'.terms && (t !in h.terms || h'.terms[t] != h.terms[t]) ==> h'.terms[t].leader == p)
  }

  lemma GrowsByTrans(h: History, h1: History, h2: History, p: Id)
    requires GrowsBy(h, h1, p) && GrowsBy(h1, h2, p)
    ensures GrowsBy(h, h2, p)
  {
    forall t | t in h.terms
      ensures t in h2.terms && RecGrows(h.terms[t], h2.terms[t])
    {
      assert RecGrows(h.terms[t], h1.terms[t]) && RecGrows(h1.terms[t], h2.terms[t]);
    }
    forall t | t in h2.terms && (t !in h.terms || h2.terms[t] != h.terms[t])
      ensures h2.terms[t].leader == p
    {
      if t in h1.terms {
        assert RecGrows(h1.terms[t], h2.terms[t]);
      }
    }
  }

  lemma GrowsCommit(h: History, h': History, log: seq<Entry>, c: nat, t: nat)
    requires Grows(h, h') && CommitOk(h, log, c, t)
    ensures CommitOk(h', log, c, t)
  {
    if c != 0 {
      var x :| x in h.chosen && CommittedBy(h, log, c, t, x);
      assert RecGrows(h.terms[x.term], h'.terms[x.term]);
      assert h'.terms[x.term].log[..c] == h.terms[x.term].log[..c];
      assert x in h'.chosen && CommittedBy(h', log, c, t, x);
    }
  }

  /** The log part survives growth that brings the node no new acknowledgement. */
  lemma GrowsLogPart(h: History, h': History, p: Id, n: Node)
    requires HistOk(h) && Grows(h, h') && LogPart(h, p, n)
    requires forall a :: a in h'.acks && a !in h.acks ==> a.node != p
    ensures LogPart(h', p, n)
  {
    var log := n.log.entries;
    GrowsLogOk(h, h', log);
    GrowsCommit(h, h', log, n.log.committed, n.term);
    forall a | a in h'.acks && a.node == p && AckOk(h', a)
      ensures Covers(h', log, a.term, a.index)
    {
      assert AckOk(h, a);
      GrowsCovers(h, h', log, a.term, a.index);
    }
  }

  lemma OtherNodeOk(h: History, h': History, p: Id, q: Id, n: Node)
    requires HistOk(h) && GrowsBy(h, h', p) && q != p && NodeOk(h, q, n)
    ensures NodeOk(h', q, n)
  {
    GrowsLogPart(h, h', q, n);
    if n.term in h.terms {
      assert RecGrows(h.terms[n.term], h'.terms[n.term]);
    }
    forall s | s in h'.terms && h'.terms[s].leader == q
      ensures s <= n.term
    {
      assert s in h.terms && h'.terms[s] == h.terms[s];
    }
  }

  lemma MsgStaysOk(h: History, h': History, m: Message)
    requires Grows(h, h') && MsgOk(h, m)
    ensures MsgOk(h', m)
  {
    if m.Append? {
      var r, r' := h.terms[m.term], h'.terms[m.term];
      assert RecGrows(r, r');
      var last := m.index + |m.entries|;
      assert r'.log[m.index..last] == r.log[m.index..last];
      GrowsCommit(h, h', r.log, m.commit, m.term);
      CommitLonger(h', r.log, r'.log, m.commit, m.term);
    } else if m.Heartbeat? {
      assert RecGrows(h.terms[m.term], h'.terms[m.term]);
    }
  }

  lemma CommitLonger(h: History, log: seq<Entry>, log': seq<Entry>, c: nat, t: nat)
    requires CommitOk(h, log, c, t) && c <= |log| && c <= |log'| && log'[..c] == log[..c]
    ensures CommitOk(h, log', c, t)
  {
    if c != 0 {
      var x :| x in h.chosen && CommittedBy(h, log, c, t, x);
      assert CommittedBy(h, log', c, t, x);
    }
  }

  // ---- one transition ----------------------------------------------------------------------

  /** New acknowledgements are of term `t`. */
  ghost predicate NewAcksIn(h: History, h': History, t: nat) {
    forall a :: a in h'.acks && a !in h.acks ==> a.term == t
  }

  /** A transition of node `p` that leads to `o` is accounted for by history `h'`. */
  ghost predicate Accounts(h: History, h': History, p: Id, o: Out) {
    && GrowsBy(h, h', p)
    && NewAcksIn(h, h', o.node.term)
    && HistOk(h')
    && NodeOk(h', p, o.node)
    && forall m {:trigger MsgOk(h', m)} :: m in o.sent ==> MsgOk(h', m)
  }

  /** Stepping down keeps the node's record: into a higher term with no vote yet, or from a
      candidacy, whose own vote stays. */
  lemma StepDownOk(h: History, p: Id, n: Node, term: nat, lead: Id)
    requires HistOk(h) && NodeOk(h, p, n)
    requires term > n.term || (term == n.term && n.role != Leader)
    ensures NodeOk(h, p, BecomeFollower(n, term, lead))
  {
    var n' := BecomeFollower(n, term, lead);
    if n.log.committed != 0 {
      var x :| x in h.chosen && CommittedBy(h, n.log.entries, n.log.committed, n.term, x);
      assert CommittedBy(h, n.log.entries, n.log.committed, term, x);
    }
    assert LogPart(h, p, n');
  }

  /** A change of the believed leader or of the persistence marks is invisible to the history. */
  lemma SameRecordOk(h: History, p: Id, n: Node, n': Node)
    requires NodeOk(h, p, n) && n'.log.Ok()
    requires n' == n.(lead := n'.lead, log := n'.log)
    requires n'.log.entries == n.log.entries && n'.log.committed == n.log.committed
    ensures NodeOk(h, p, n')
  {
    if n.role.Leader? {
      forall q | q in n'.prs ensures MatchOk(h, n', q) {
        assert MatchOk(h, n, q);
      }
    }
  }

  /** Whatever a leader sends with sendAppend is a slice of its log up to the end. */
  lemma AppendToOk(h: History, p: Id, n: Node, to: Id)
    requires HistOk(h) && NodeOk(h, p, n) && n.role == Leader
    requires to in n.prs && to != p && CanAppend(n, to)
    ensures MsgOk(h, AppendTo(n, to))
  {
    var prev := n.prs[to].next - 1;
    n.log.Views(prev);
    var m := AppendTo(n, to);
    assert TermOk(h, n.term);
    assert m.entries == n.log.entries[prev..|n.log.entries|];
  }

  lemma BroadcastAppendOk(h: History, p: Id, n: Node)
    requires HistOk(h) && NodeOk(h, p, n) && n.role == Leader
    ensures forall m :: m in BroadcastAppend(n) ==> MsgOk(h, m)
  {
    forall m | m in BroadcastAppend(n) ensures MsgOk(h, m) {
      var q :| q in n.prs && q != n.id && CanAppend(n, q) && m == AppendTo(n, q);
      AppendToOk(h, p, n, q);
    }
  }

  // ---- elections ---------------------------------------------------------------------------

  function CandidateState(n: Node): Node {
    n.(role := Candidate, term := n.term + 1, lead := NONE, vote := n.id, votes := map[n.id := true])
  }

  function CandidacyHistory(h: History, p: Id, n: Node): History {
    var b := Ballot(p, n.term + 1);
    AddVote(AddBid(h, b, n.log.entries), b, p)
  }

  /** Opening a candidacy: a bid with the current log, and a vote for oneself. */
  lemma CandidacyHistoryOk(h: History, p: Id, n: Node)
    requires HistOk(h) && NodeOk(h, p, n)
    ensures GrowsBy(h, CandidacyHistory(h, p, n), p) && HistOk(CandidacyHistory(h, p, n))
  {
    var b := Ballot(p, n.term + 1);
    var log := n.log.entries;
    AddBidOk(h, b, log);
    var h1 := AddBid(h, b, log);
    forall a | a in h1.acks && a.node == p && a.term < b.term && AckOk(h1, a)
      ensures Covers(h1, h1.bids[b], a.term, a.index)
    {
      assert AckOk(h, a);
      GrowsCovers(h, h1, log, a.term, a.index);
    }
    AddVoteOk(h1, b, p);
    GrowsByTrans(h, h1, CandidacyHistory(h, p, n), p);
  }

  lemma CandidacyOk(h: History, p: Id, n: Node)
    requires HistOk(h) && NodeOk(h, p, n)
    ensures NodeOk(CandidacyHistory(h, p, n), p, CandidateState(n))
  {
    var h' := CandidacyHistory(h, p, n);
    var n' := CandidateState(n);
    CandidacyHistoryOk(h, p, n);
    GrowsLogPart(h, h', p, n);
    LaterTermCommit(h', n.log.entries, n.log.committed, n.term, n'.term);
    assert LogPart(h', p, n');
    assert Untouched(h', p, n'.term);
  }

  lemma LaterTermCommit(h: History, log: seq<Entry>, c: nat, t: nat, t': nat)
    requires CommitOk(h, log, c, t) && t <= t'
    ensures CommitOk(h, log, c, t')
  {
    if c != 0 {
      var x :| x in h.chosen && CommittedBy(h, log, c, t, x);
      assert CommittedBy(h, log, c, t', x);
    }
  }

  function ElectionHistory(h: History, p: Id, n: Node): History {
    var init := n.log.entries;
    AddAck(AddTerm(h, n.term, p, Granted(n.votes), init), Ack(p, n.term, |init| + 1))
  }

  /** A candidate with the votes of a quorum is the first leader of its term. */
  lemma FirstLeader(h: History, p: Id, n: Node)
    requires HistOk(h) && NodeOk(h, p, n) && n.role == Candidate
    requires Quorum(h.peers, Granted(n.votes))
    ensures n.term !in h.terms && n.term >= 1
  {
    if n.term in h.terms {
      OneLeader(h, n.term, Granted(n.votes), p);
    }
    assert BidOk(h, Ballot(p, n.term));
  }

  /** A node adds an acknowledgement of its own to a history it has grown. */
  lemma OwnAckOk(h: History, h1: History, a: Ack)
    requires HistOk(h1) && GrowsBy(h, h1, a.node) && AckOk(h1, a)
    requires forall b :: b in h1.votes && b.node == a.node ==> a.term >= b.term
    ensures GrowsBy(h, AddAck(h1, a), a.node) && HistOk(AddAck(h1, a))
  {
    AddAckOk(h1, a);
    GrowsByTrans(h, h1, AddAck(h1, a), a.node);
  }

  lemma ElectionHistoryOk(h: History, p: Id, n: Node)
    requires HistOk(h) && NodeOk(h, p, n) && n.role == Candidate
    requires Quorum(h.peers, Granted(n.votes))
    ensures GrowsBy(h, ElectionHistory(h, p, n), p) && HistOk(ElectionHistory(h, p, n))
  {
    FirstLeader(h, p, n);
    assert BidOk(h, Ballot(p, n.term));
    OwnTermGrows(h, p, n.term, Granted(n.votes), n.log.entries);
  }

  /** A quorum's candidate opens the record of its term and acknowledges the no-op in it. */
  lemma OwnTermGrows(h: History, p: Id, t: nat, voters: set<Id>, init: seq<Entry>)
    requires HistOk(h) && t !in h.terms && t >= 1 && p in h.peers && Quorum(h.peers, voters)
    requires forall v :: v in voters ==> Ballot(v, t) in h.votes && h.votes[Ballot(v, t)] == p
    requires Ballot(p, t) in h.bids && h.bids[Ballot(p, t)] == init
    requires forall b :: b in h.votes && b.node == p ==> t >= b.term
    ensures var h' := AddAck(AddTerm(h, t, p, voters, init), Ack(p, t, |init| + 1));
            GrowsBy(h, h', p) && HistOk(h')
  {
    AddTermOk(h, t, p, voters, init);
    OwnAckOk(h, AddTerm(h, t, p, voters, init), Ack(p, t, |init| + 1));
  }

  lemma LeaderStateOk(h: History, p: Id, n: Node)
    requires HistOk(h) && NodeOk(h, p, n) && n.role == Candidate
    requires Quorum(h.peers, Granted(n.votes))
    ensures NodeOk(ElectionHistory(h, p, n), p, LeaderState(n))
  {
    FirstLeader(h, p, n);
    ElectionHistoryOk(h, p, n);
    LeaderShape(n);
    ElectedNodeOk(h, ElectionHistory(h, p, n), p, n, LeaderState(n));
  }

  /** What winning does to the candidate, seen from outside. */
  lemma LeaderShape(n: Node)
    requires n.Wf() && n.log.Ok()
    ensures var n' := LeaderState(n);
            && n'.role == Leader && n'.id == n.id && n'.term == n.term && n'.prs.Keys == n.prs.Keys
            && n'.log.Ok() && n'.log.committed == n.log.committed
            && n'.log.entries == n.log.entries + [Entry(|n.log.entries| + 1, n.term, [])]
            && forall r :: r in n'.prs ==> n'.prs[r].match_ == (if r == n.id then |n'.log.entries| else 0)
  {
    n.log.Views(0);
    var n' := LeaderState(n);
    assert n'.prs.Keys == n.prs.Keys;
  }

  lemma ElectedNodeOk(h: History, h': History, p: Id, n: Node, n': Node)
    requires HistOk(h) && HistOk(h') && Grows(h, h') && NodeOk(h, p, n)
    requires n'.role == Leader && n'.id == n.id && n'.term == n.term && n'.prs.Keys == n.prs.Keys
    requires n'.log.Ok() && n'.log.committed == n.log.committed && n.log.entries <= n'.log.entries
    requires forall r :: r in n'.prs ==> n'.prs[r].match_ == (if r == n.id then |n'.log.entries| else 0)
    requires h'.votes == h.votes && h'.bids == h.bids && h'.acks == h.acks + {Ack(p, n.term, |n'.log.entries|)}
    requires n.term in h'.terms && h'.terms == h.terms[n.term := h'.terms[n.term]]
    requires h'.terms[n.term].leader == p && h'.terms[n.term].log == n'.log.entries
    ensures NodeOk(h', p, n')
  {
    LongerLogPart(h, h', p, n, n');
    assert RolePart(h', p, n');
  }

  /** The log of a leader after it grew to the log on record, its new end acknowledged by itself. */
  lemma LongerLogPart(h: History, h': History, p: Id, n: Node, n': Node)
    requires HistOk(h) && HistOk(h') && Grows(h, h') && LogPart(h, p, n)
    requires n'.term == n.term && n.term in h'.terms && n'.log.Ok()
    requires n.log.entries <= n'.log.entries == h'.terms[n.term].log && n'.log.committed == n.log.committed
    requires forall a :: a in h'.acks && a !in h.acks && a.node == p ==> a.term == n.term
    ensures LogPart(h', p, n')
  {
    var log, log' := n.log.entries, n'.log.entries;
    assert TermOk(h', n.term);
    GrowsCommit(h, h', log, n.log.committed, n.term);
    CommitLonger(h', log, log', n.log.committed, n.term);
    assert TermsBelow(log', n.term + 1) by {
      var r := h'.terms[n.term];
      assert forall i :: 0 <= i < |r.init| ==> log'[i] == r.init[i];
    }
    forall b | b in h'.acks && b.node == p && AckOk(h', b)
      ensures Covers(h', log', b.term, b.index)
    {
      if b in h.acks {
        LongerCovers(h, h', log, log', b);
      }
    }
  }

  lemma LongerCovers(h: History, h': History, log: seq<Entry>, log': seq<Entry>, a: Ack)
    requires HistOk(h) && HistOk(h') && Grows(h, h') && LogOk(h', log') && log <= log'
    requires a in h.acks && AckOk(h, a) && AckOk(h', a) && Covers(h, log, a.term, a.index)
    ensures Covers(h', log', a.term, a.index)
  {
    GrowsCovers(h, h', log, a.term, a.index);
    if LastTerm(log) > a.term {
      TermsAscend(h', log', |log| - 1, |log'| - 1);
    }
  }

  // ---- commitment --------------------------------------------------------------------------

  /** A leader may commit what a quorum has acknowledged in its term. */
  lemma LeaderCommitOk(h: History, p: Id, n: Node, k: nat, q: set<Id>) returns (h': History)
    requires HistOk(h) && NodeOk(h, p, n) && n.role == Leader
    requires n.log.committed <= k <= |n.log.entries| && Quorum(h.peers, q)
    requires forall v :: v in q ==> exists i :: i >= k && Ack(v, n.term, i) in h.acks
    ensures GrowsBy(h, h', p) && HistOk(h') && h'.acks == h.acks
    ensures NodeOk(h', p, n.(log := n.log.(committed := k)))
  {
    var x := Chosen(n.term, k, q);
    var n' := n.(log := n.log.(committed := k));
    assert ChosenOk(h, x);
    AddChosenOk(h, x);
    h' := AddChosen(h, x);
    GrowsLogPart(h, h', p, n);
    assert CommittedBy(h', n'.log.entries, k, n'.term, x);
    assert LogPart(h', p, n');
    forall r | r in n'.prs ensures MatchOk(h', n', r) {
      assert MatchOk(h, n, r);
    }
    assert RolePart(h', p, n');
  }

  /** In a cluster of one, the node's own acknowledgement is a quorum. */
  lemma SingleCommitOk(h: History, p: Id, n: Node) returns (h': History)
    requires HistOk(h) && NodeOk(h, p, n) && n.role == Leader && |n.prs| == 1
    ensures GrowsBy(h, h', p) && HistOk(h') && h'.acks == h.acks
    ensures NodeOk(h', p, n.(log := n.log.(committed := |n.log.entries|)))
  {
    assert |h.peers| == |n.prs.Keys| == 1;
    h' := LeaderCommitOk(h, p, n, |n.log.entries|, {p});
  }

  /** A leader that has just extended its log to `n`: commit at once when alone, else replicate. */
  function Publish(n: Node): Out
    requires n.Wf()
  {
    if |n.prs| == 1 then Out(n.(log := n.log.(committed := |n.log.entries|)), {})
    else Out(n, BroadcastAppend(n))
  }

  lemma PublishOk(h: History, h1: History, p: Id, n: Node) returns (h': History)
    requires HistOk(h1) && NodeOk(h1, p, n) && n.role == Leader
    requires GrowsBy(h, h1, p) && NewAcksIn(h, h1, n.term)
    ensures Accounts(h, h', p, Publish(n))
  {
    if |n.prs| == 1 {
      h' := SingleCommitOk(h1, p, n);
      GrowsByTrans(h, h1, h', p);
    } else {
      h' := h1;
      BroadcastAppendOk(h', p, n);
    }
  }

  lemma BecomeLeaderPublishes(n: Node)
    requires n.Wf()
    ensures BecomeLeader(n) == Publish(LeaderState(n))
  {
    n.log.Views(0);
    var n1 := LeaderState(n);
    assert n1.prs.Keys == n.prs.Keys;
    assert |n1.prs| == |n1.prs.Keys| == |n.prs.Keys|;
  }

  lemma BecomeLeaderOk(h: History, p: Id, n: Node) returns (h': History)
    requires HistOk(h) && NodeOk(h, p, n) && n.role == Candidate
    requires Quorum(h.peers, Granted(n.votes))
    ensures Accounts(h, h', p, BecomeLeader(n))
  {
    ElectionHistoryOk(h, p, n);
    LeaderStateOk(h, p, n);
    h' := PublishOk(h, ElectionHistory(h, p, n), p, LeaderState(n));
    BecomeLeaderPublishes(n);
  }

  lemma CampaignOk(h: History, p: Id, n: Node) returns (h': History)
    requires HistOk(h) && NodeOk(h, p, n)
    ensures Accounts(h, h', p, Campaign(n))
  {
    var n1 := CandidateState(n);
    CandidacyHistoryOk(h, p, n);
    CandidacyOk(h, p, n);
    h' := CandidacyHistory(h, p, n);
    if |n.prs| == 1 {
      assert |h.peers| == |n.prs.Keys| == 1;
      assert Granted(n1.votes) == {p};
      var h1 := h';
      h' := BecomeLeaderOk(h1, p, n1);
      GrowsByTrans(h, h1, h', p);
      assert BecomeLeader(n1).node.role == Leader;
      assert Campaign(n) == BecomeLeader(n1);
    } else {
      n1.log.Views(|n1.log.entries|);
      assert Campaign(n) == Out(n1, BroadcastVoteRequest(n1));
      forall m | m in BroadcastVoteRequest(n1) ensures MsgOk(h', m) {}
    }
  }

  lemma VoteRequestOk(h: History, p: Id, n: Node, m: Message) returns (h': History)
    requires HistOk(h) && NodeOk(h, p, n) && n.role == Follower
    requires m.RequestVote? && MsgOk(h, m) && m.term == n.term && m.to == p
    ensures Accounts(h, h', p, HandleVoteRequest(n, m))
  {
    h' := h;
    if !RejectsVote(n, m) && n.vote == NONE {
      GrantKeepsBids(h, p, n, m);
      h' := AddVote(h, Ballot(p, n.term), m.from);
      VoteGrantedOk(h, h', p, n, m);
    }
  }

  /** The bid granted covers everything the voter has acknowledged in earlier terms. */
  lemma GrantKeepsBids(h: History, p: Id, n: Node, m: Message)
    requires HistOk(h) && NodeOk(h, p, n) && n.role == Follower
    requires m.RequestVote? && MsgOk(h, m) && m.term == n.term && m.to == p
    requires !RejectsVote(n, m) && n.vote == NONE
    ensures var h' := AddVote(h, Ballot(p, n.term), m.from);
            GrowsBy(h, h', p) && HistOk(h')
  {
    n.log.Views(|n.log.entries|);
    var b := Ballot(p, n.term);
    var bid := h.bids[Ballot(m.from, n.term)];
    assert BidOk(h, Ballot(m.from, n.term));
    forall a | a in h.acks && a.node == p && a.term < b.term && AckOk(h, a)
      ensures Covers(h, bid, a.term, a.index)
    {
      UpToDateCovers(h, bid, n.log.entries, a);
    }
    AddVoteOk(h, b, m.from);
  }

  lemma VoteGrantedOk(h: History, h': History, p: Id, n: Node, m: Message)
    requires HistOk(h) && NodeOk(h, p, n) && n.role == Follower
    requires m.RequestVote? && MsgOk(h, m) && m.term == n.term && m.to == p
    requires !RejectsVote(n, m) && n.vote == NONE
    requires h' == AddVote(h, Ballot(p, n.term), m.from) && GrowsBy(h, h', p) && HistOk(h')
    ensures Accounts(h, h', p, HandleVoteRequest(n, m))
  {
    var n' := n.(vote := m.from);
    GrowsLogPart(h, h', p, n);
    assert LogPart(h', p, n');
  }

  lemma VoteResponseOk(h: History, p: Id, n: Node, m: Message) returns (h': History)
    requires HistOk(h) && NodeOk(h, p, n) && n.role == Candidate
    requires m.RequestVoteResponse? && MsgOk(h, m) && m.term == n.term && m.to == p
    ensures Accounts(h, h', p, HandleVoteResponse(n, m))
  {
    var n1 := n.(votes := n.votes[m.from := !m.reject]);
    assert LogPart(h, p, n1);
    assert NodeOk(h, p, n1);
    if |Granted(n1.votes)| > |n.prs| / 2 {
      assert Granted(n1.votes) <= h.peers;
      assert |n.prs| == |n.prs.Keys| == |h.peers|;
      h' := BecomeLeaderOk(h, p, n1);
    } else {
      h' := h;
      StepDownOk(h, p, n1, n.term, NONE);
    }
  }

  // ---- replication -------------------------------------------------------------------------

  /** The conflict loop seen on the entries alone, from entry `i` of `es` on. */
  function MergeSeq(log: seq<Entry>, es: seq<Entry>, start: nat, i: nat): (r: seq<Entry>)
    requires i <= |es| && start + i <= |log|
    decreases |es| - i
  {
    if i == |es| then log
    else if start + i < |log| && log[start + i].term == es[i].term then MergeSeq(log, es, start, i + 1)
    else MergeSeq(log[..start + i] + [es[i]], es, start, i + 1)
  }

  lemma {:induction false} MergeEntries(l: RaftLog, es: seq<Entry>, start: nat, i: nat)
    requires l.Wf() && Numbered(es, start) && i <= |es| && start + i <= |l.entries|
    ensures MergeFrom(l, es, start, i).entries == MergeSeq(l.entries, es, start, i)
    decreases |es| - i
  {
    if i < |es| {
      assert es[i].index == start + i + 1;
      MergeEntries(MergeOne(l, es[i]), es, start, i + 1);
    }
  }

  /** Where two logs have an entry of the same term, they agree up to there. */
  ghost predicate Matching(a: seq<Entry>, b: seq<Entry>) {
    forall i {:trigger a[i], b[i]} :: 0 <= i < |a| && i < |b| && a[i].term == b[i].term ==> a[..i + 1] == b[..i + 1]
  }

  lemma {:induction false} MergeDiverged(log: seq<Entry>, es: seq<Entry>, start: nat, i: nat)
    requires i <= |es| && start + i == |log|
    ensures MergeSeq(log, es, start, i) == log + es[i..]
    decreases |es| - i
  {
    if i < |es| {
      assert log[..start + i] == log;
      MergeDiverged(log + [es[i]], es, start, i + 1);
      assert log + [es[i]] + es[i + 1..] == log + es[i..];
    }
  }

  /** On logs that match, a merge keeps the log if it already holds all the leader sent, and
      makes it exactly the leader's log up to the end of the message otherwise. */
  lemma {:induction false} MergeResult(log: seq<Entry>, es: seq<Entry>, start: nat, i: nat, full: seq<Entry>)
    requires i <= |es| && start + i <= |log| && start + |es| == |full|
    requires log[..start + i] == full[..start + i] && es == full[start..] && Matching(log, full)
    ensures MergeSeq(log, es, start, i) == if full <= log then log else full
    decreases |es| - i
  {
    if i == |es| {
      assert full == log[..start + i];
    } else {
      assert es[i] == full[start + i];
      if start + i < |log| && log[start + i].term == es[i].term {
        MergeResult(log, es, start, i + 1, full);
      } else {
        var log' := log[..start + i] + [es[i]];
        assert log' == full[..start + i + 1];
        MergeDiverged(log', es, start, i + 1);
        assert log' + es[i + 1..] == full;
        assert full[start + i] == es[i];
      }
    }
  }

  lemma AgreeBefore(a: seq<Entry>, b: seq<Entry>, k: nat)
    requires Matching(a, b) && k <= |a| && k <= |b| && TermAt(a, k) == TermAt(b, k)
    ensures a[..k] == b[..k]
  {
    if k > 0 {
      assert a[k - 1].term == b[k - 1].term;
    }
  }

  /** Merging the rest of a log that matches, from a point at which the two agree. */
  lemma MergeMatching(l: RaftLog, start: nat, full: seq<Entry>)
    requires l.Wf() && start <= |l.entries| && start <= |full| && Numbered(full[start..], start)
    requires TermAt(l.entries, start) == TermAt(full, start) && Matching(l.entries, full)
    ensures Merge(l, full[start..], start).entries == if full <= l.entries then l.entries else full
  {
    AgreeBefore(l.entries, full, start);
    MergeEntries(l, full[start..], start, 0);
    MergeResult(l.entries, full[start..], start, 0, full);
  }

  lemma LogsMatching(h: History, a: seq<Entry>, b: seq<Entry>)
    requires LogOk(h, a) && LogOk(h, b)
    ensures Matching(a, b)
  {
    forall i | 0 <= i < |a| && i < |b| && a[i].term == b[i].term ensures a[..i + 1] == b[..i + 1] {
      LogsMatch(h, a, b, i);
    }
  }

  /** Accepting an append: the log afterwards holds the leader's entries up to the end of the
      message, and either it did so before or it now ends there. */
  lemma AcceptedLog(h: History, p: Id, n: Node, m: Message)
    requires HistOk(h) && NodeOk(h, p, n) && MsgOk(h, m) && m.Append? && m.term == n.term
    requires WfMessage(n, m) && AcceptsAppend(n, m)
    ensures m.index <= |n.log.entries|
    ensures var full := h.terms[m.term].log[..m.index + |m.entries|];
            Merge(n.log, m.entries, m.index).entries == if full <= n.log.entries then n.log.entries else full
  {
    var ll := h.terms[m.term].log;
    var full := ll[..m.index + |m.entries|];
    n.log.Views(m.index);
    assert TermOk(h, m.term);
    PrefixOk(h, ll, |full|);
    LogsMatching(h, n.log.entries, full);
    SuffixOf(ll, m.index, m.entries);
    MergeMatching(n.log, m.index, full);
  }

  lemma SuffixOf(ll: seq<Entry>, i: nat, es: seq<Entry>)
    requires i + |es| <= |ll| && es == ll[i..i + |es|]
    ensures es == ll[..i + |es|][i..] && TermAt(ll[..i + |es|], i) == TermAt(ll, i)
  {
  }

  /** A follower's committed entries are in the log of the leader of its term. */
  lemma CommittedInLeader(h: History, p: Id, n: Node)
    requires HistOk(h) && NodeOk(h, p, n) && n.term in h.terms
    ensures var ll, c := h.terms[n.term].log, n.log.committed;
            c <= |ll| && c <= |n.log.entries| && n.log.entries[..c] == ll[..c]
  {
    var log, c := n.log.entries, n.log.committed;
    if c != 0 {
      var x :| x in h.chosen && CommittedBy(h, log, c, n.term, x);
      ChosenInLog(h, x, n.term);
      var lx := h.terms[x.term].log;
      assert log[..c] == lx[..x.index][..c];
    }
  }

  /** The log of a follower after an accepted append, relative to the leader's log up to the end
      of the message. */
  ghost predicate Follows(log: seq<Entry>, full: seq<Entry>, log': seq<Entry>) {
    log' == if full <= log then log else full
  }

  /** No committed entry is cut. */
  lemma CommittedKept(log: seq<Entry>, ll: seq<Entry>, last: nat, log': seq<Entry>, c: nat)
    requires last <= |ll| && c <= |log| && c <= |ll| && log[..c] == ll[..c] && Follows(log, ll[..last], log')
    ensures c <= |log'| && log'[..c] == log[..c]
  {
    if c > last {
      assert ll[..last] == log[..c][..last];
    } else if !(ll[..last] <= log) {
      assert log'[..c] == ll[..c];
    }
  }

  /** The follower's commit mark only rises, and stays backed by a chosen prefix. */
  lemma AcceptedCommit(h: History, p: Id, n: Node, m: Message, log': seq<Entry>)
    requires HistOk(h) && NodeOk(h, p, n) && m.Append? && AppendOk(h, m) && m.term == n.term
    requires Follows(n.log.entries, h.terms[m.term].log[..m.index + |m.entries|], log')
    ensures var c := n.log.committed;
            var c' := if m.commit > c then Min(m.commit, m.index + |m.entries|) else c;
            && c <= c' <= |log'|
            && log'[..c] == n.log.entries[..c]
            && CommitOk(h, log', c', n.term)
  {
    var log, c := n.log.entries, n.log.committed;
    var ll := h.terms[m.term].log;
    CommittedInLeader(h, p, n);
    CommittedKept(log, ll, m.index + |m.entries|, log', c);
    CommitLonger(h, log, log', c, n.term);
    if m.commit > c {
      assert ll[..m.index + |m.entries|] <= log';
      assert log'[..m.commit] == ll[..m.commit];
      CommitLonger(h, ll, log', m.commit, n.term);
    }
  }

  /** What the follower acknowledged before stays covered. */
  lemma AcceptedCovers(h: History, p: Id, n: Node, m: Message, log': seq<Entry>, a: Ack)
    requires HistOk(h) && NodeOk(h, p, n) && m.Append? && AppendOk(h, m) && m.term == n.term
    requires Follows(n.log.entries, h.terms[m.term].log[..m.index + |m.entries|], log')
    requires a in h.acks && a.node == p && AckOk(h, a)
    ensures Covers(h, log', a.term, a.index)
  {
    var log := n.log.entries;
    var ll := h.terms[m.term].log;
    var full := ll[..m.index + |m.entries|];
    assert TermOk(h, m.term);
    assert Covers(h, log, a.term, a.index);
    if !(full <= log) {
      assert LastTerm(full) == m.term;
      if a.term == m.term {
        assert LastTerm(log) <= n.term;
        assert ll[..a.index] <= log;
        PrefixOrder(ll, |full|, a.index, log);
      }
    }
  }

  lemma PrefixOrder(ll: seq<Entry>, i: nat, j: nat, log: seq<Entry>)
    requires i <= |ll| && j <= |ll| && ll[..j] <= log && !(ll[..i] <= log)
    ensures j < i && ll[..j] <= ll[..i]
  {
  }

  lemma AcceptedLogPart(h: History, h': History, p: Id, n: Node, m: Message, n': Node)
    requires HistOk(h) && NodeOk(h, p, n) && m.Append? && AppendOk(h, m) && m.term == n.term
    requires Follows(n.log.entries, h.terms[m.term].log[..m.index + |m.entries|], n'.log.entries)
    requires h' == AddAck(h, Ack(p, n.term, m.index + |m.entries|)) && Grows(h, h')
    requires n'.term == n.term && n'.log.Ok() && CommitOk(h, n'.log.entries, n'.log.committed, n.term)
    ensures LogPart(h', p, n')
  {
    var log' := n'.log.entries;
    GrowsCommit(h, h', log', n'.log.committed, n.term);
    AcceptedLogOk(h, p, n, m, log');
    GrowsLogOk(h, h', log');
    forall a | a in h'.acks && a.node == p && AckOk(h', a)
      ensures Covers(h', log', a.term, a.index)
    {
      AcceptedCoversAll(h, h', p, n, m, log', a);
    }
  }

  lemma AcceptedLogOk(h: History, p: Id, n: Node, m: Message, log': seq<Entry>)
    requires HistOk(h) && NodeOk(h, p, n) && m.Append? && AppendOk(h, m) && m.term == n.term
    requires Follows(n.log.entries, h.terms[m.term].log[..m.index + |m.entries|], log')
    ensures LogOk(h, log') && TermsBelow(log', n.term + 1)
  {
    assert TermOk(h, m.term);
    PrefixOk(h, h.terms[m.term].log, m.index + |m.entries|);
    LeaderTermsBelow(h, n.term);
  }

  lemma AcceptedCoversAll(h: History, h': History, p: Id, n: Node, m: Message, log': seq<Entry>, a: Ack)
    requires HistOk(h) && NodeOk(h, p, n) && m.Append? && AppendOk(h, m) && m.term == n.term
    requires Follows(n.log.entries, h.terms[m.term].log[..m.index + |m.entries|], log')
    requires h' == AddAck(h, Ack(p, n.term, m.index + |m.entries|)) && Grows(h, h')
    requires a in h'.acks && a.node == p
    ensures a.term in h'.terms && a.index <= |h'.terms[a.term].log| && Covers(h', log', a.term, a.index)
  {
    if a in h.acks {
      assert AckOk(h, a);
      AcceptedCovers(h, p, n, m, log', a);
      GrowsCovers(h, h', log', a.term, a.index);
    }
  }

  lemma LeaderTermsBelow(h: History, t: nat)
    requires HistOk(h) && t in h.terms
    ensures TermsBelow(h.terms[t].log, t + 1)
  {
    assert TermOk(h, t);
    var r := h.terms[t];
    assert forall i :: 0 <= i < |r.init| ==> r.log[i] == r.init[i];
  }

  lemma AckHistoryOk(h: History, p: Id, n: Node, m: Message)
    requires HistOk(h) && NodeOk(h, p, n) && m.Append? && AppendOk(h, m) && m.term == n.term
    ensures var h' := AddAck(h, Ack(p, n.term, m.index + |m.entries|));
            GrowsBy(h, h', p) && HistOk(h') && Untouched(h', p, n.term)
  {
    var a := Ack(p, n.term, m.index + |m.entries|);
    assert AckOk(h, a);
    AddAckOk(h, a);
  }

  lemma AcceptOk(h: History, p: Id, n: Node, m: Message, l: RaftLog) returns (h': History)
    requires HistOk(h) && NodeOk(h, p, n) && n.role == Follower
    requires m.Append? && MsgOk(h, m) && m.term == n.term && m.to == p
    requires l.Wf() && l.committed == n.log.committed && l.applied == n.log.applied
    requires Follows(n.log.entries, h.terms[m.term].log[..m.index + |m.entries|], l.entries)
    ensures Accounts(h, h', p, Accept(n, m, l))
  {
    h' := AddAck(h, Ack(p, n.term, m.index + |m.entries|));
    AckHistoryOk(h, p, n, m);
    AcceptedNodeOk(h, h', p, n, m, l);
  }

  lemma AcceptedNodeOk(h: History, h': History, p: Id, n: Node, m: Message, l: RaftLog)
    requires HistOk(h) && NodeOk(h, p, n) && n.role == Follower
    requires m.Append? && MsgOk(h, m) && m.term == n.term && m.to == p
    requires l.Wf() && l.committed == n.log.committed && l.applied == n.log.applied
    requires Follows(n.log.entries, h.terms[m.term].log[..m.index + |m.entries|], l.entries)
    requires h' == AddAck(h, Ack(p, n.term, m.index + |m.entries|)) && Grows(h, h')
    ensures NodeOk(h', p, Accept(n, m, l).node)
  {
    AcceptedCommit(h, p, n, m, l.entries);
    AcceptedLogPart(h, h', p, n, m, Accept(n, m, l).node);
  }

  lemma AppendAcceptedOk(h: History, p: Id, n: Node, m: Message) returns (h': History)
    requires HistOk(h) && NodeOk(h, p, n) && n.role == Follower
    requires m.Append? && MsgOk(h, m) && m.term == n.term && m.to == p && WfMessage(n, m)
    requires AcceptsAppend(n, m)
    ensures Accounts(h, h', p, HandleAppend(n, m))
  {
    AcceptedLog(h, p, n, m);
    h' := AcceptOk(h, p, n, m, Merge(n.log, m.entries, m.index));
  }

  lemma AppendHandledOk(h: History, p: Id, n: Node, m: Message) returns (h': History)
    requires HistOk(h) && NodeOk(h, p, n) && n.role == Follower
    requires m.Append? && MsgOk(h, m) && m.term == n.term && m.to == p && WfMessage(n, m)
    ensures Accounts(h, h', p, HandleAppend(n, m))
  {
    if AcceptsAppend(n, m) {
      h' := AppendAcceptedOk(h, p, n, m);
    } else {
      h' := h;
    }
  }

  // ---- the leader --------------------------------------------------------------------------

  lemma ProgressOk(h: History, p: Id, n: Node, q: Id, pr: Progress)
    requires NodeOk(h, p, n) && n.role == Leader && q in n.prs
    requires pr.match_ == 0 || Ack(q, n.term, pr.match_) in h.acks
    ensures NodeOk(h, p, WithProgress(n, q, pr))
  {
    var n' := WithProgress(n, q, pr);
    assert n'.prs.Keys == n.prs.Keys;
    forall r | r in n'.prs ensures MatchOk(h, n', r) {
      assert MatchOk(h, n, r);
    }
    assert LogPart(h, p, n');
  }

  function ProposalHistory(h: History, p: Id, n: Node, payload: seq<Data>): History
    requires n.term in h.terms
  {
    AddAck(ExtendLog(h, n.term, Proposed(payload, |n.log.entries|, n.term)),
           Ack(p, n.term, |n.log.entries| + |payload|))
  }

  lemma OwnLogOk(h: History, t: nat, more: seq<Entry>)
    requires HistOk(h) && t in h.terms
    requires Numbered(more, |h.terms[t].log|) && forall i :: 0 <= i < |more| ==> more[i].term == t
    ensures GrowsBy(h, ExtendLog(h, t, more), h.terms[t].leader) && HistOk(ExtendLog(h, t, more))
  {
    ExtendLogOk(h, t, more);
  }

  lemma ProposalHistoryOk(h: History, p: Id, n: Node, payload: seq<Data>)
    requires HistOk(h) && NodeOk(h, p, n) && n.role == Leader
    ensures var h' := ProposalHistory(h, p, n, payload);
            GrowsBy(h, h', p) && HistOk(h')
  {
    assert AckOk(h, Ack(p, n.term, |n.log.entries|));
    OwnLogGrows(h, p, n.term, Proposed(payload, |n.log.entries|, n.term));
  }

  /** A leader adds entries to its log on record and acknowledges them. */
  lemma OwnLogGrows(h: History, p: Id, t: nat, more: seq<Entry>)
    requires HistOk(h) && t in h.terms && h.terms[t].leader == p && |h.terms[t].init| < |h.terms[t].log|
    requires Numbered(more, |h.terms[t].log|) && forall i :: 0 <= i < |more| ==> more[i].term == t
    requires forall b :: b in h.votes && b.node == p ==> t >= b.term
    ensures var h' := AddAck(ExtendLog(h, t, more), Ack(p, t, |h.terms[t].log| + |more|));
            GrowsBy(h, h', p) && HistOk(h')
  {
    OwnLogOk(h, t, more);
    OwnAckOk(h, ExtendLog(h, t, more), Ack(p, t, |h.terms[t].log| + |more|));
  }

  lemma ProposeRoleOk(h: History, h': History, p: Id, n: Node, n': Node)
    requires NodeOk(h, p, n) && n.role == Leader && n'.role == Leader && n'.term == n.term && h.acks <= h'.acks
    requires n.term in h'.terms && h'.terms[n.term].leader == p && h'.terms[n.term].log == n'.log.entries
    requires Ack(p, n.term, |n'.log.entries|) in h'.acks
    requires n'.prs.Keys == n.prs.Keys
    requires forall r :: r in n'.prs ==> n'.prs[r].match_ == (if r == p then |n'.log.entries| else n.prs[r].match_)
    ensures RolePart(h', p, n')
  {
    forall r | r in n'.prs ensures MatchOk(h', n', r) {
      assert MatchOk(h, n, r);
    }
  }

  /** What a proposal does to the leader, seen from outside. */
  lemma ProposedShape(n: Node, payload: seq<Data>)
    requires n.Wf() && n.log.Ok()
    ensures var n' := ProposeState(n, payload);
            && n'.(log := n.log, prs := n.prs) == n && n'.log.Ok() && n'.log.committed == n.log.committed
            && n'.log.entries == n.log.entries + Proposed(payload, |n.log.entries|, n.term)
            && n'.prs.Keys == n.prs.Keys
            && forall r :: r in n'.prs ==> n'.prs[r].match_ == (if r == n.id then |n'.log.entries| else n.prs[r].match_)
  {
    n.log.Views(0);
    var n' := ProposeState(n, payload);
    n'.log.Views(0);
    assert n'.prs.Keys == n.prs.Keys;
  }

  lemma ProposeStateOk(h: History, p: Id, n: Node, payload: seq<Data>)
    requires HistOk(h) && NodeOk(h, p, n) && n.role == Leader
    ensures NodeOk(ProposalHistory(h, p, n, payload), p, ProposeState(n, payload))
  {
    var h' := ProposalHistory(h, p, n, payload);
    ProposalHistoryOk(h, p, n, payload);
    ProposedShape(n, payload);
    ProposedNodeOk(h, h', p, n, ProposeState(n, payload));
  }

  lemma ProposedNodeOk(h: History, h': History, p: Id, n: Node, n': Node)
    requires HistOk(h) && HistOk(h') && Grows(h, h') && NodeOk(h, p, n) && n.role == Leader
    requires n'.(log := n.log, prs := n.prs) == n && n'.prs.Keys == n.prs.Keys
    requires n'.log.Ok() && n'.log.committed == n.log.committed && n.log.entries <= n'.log.entries
    requires forall r :: r in n'.prs ==> n'.prs[r].match_ == (if r == n.id then |n'.log.entries| else n.prs[r].match_)
    requires h'.votes == h.votes && h'.bids == h.bids && h'.acks == h.acks + {Ack(p, n.term, |n'.log.entries|)}
    requires h'.terms == h.terms[n.term := h.terms[n.term].(log := n'.log.entries)]
    ensures NodeOk(h', p, n')
  {
    LongerLogPart(h, h', p, n, n');
    ProposeRoleOk(h, h', p, n, n');
  }

  lemma ProposeOk(h: History, p: Id, n: Node, payload: seq<Data>) returns (h': History)
    requires HistOk(h) && NodeOk(h, p, n) && n.role == Leader
    ensures Accounts(h, h', p, HandlePropose(n, payload))
  {
    ProposalHistoryOk(h, p, n, payload);
    ProposeStateOk(h, p, n, payload);
    ProposePublishes(n, payload);
    h' := PublishOk(h, ProposalHistory(h, p, n, payload), p, ProposeState(n, payload));
  }

  lemma ProposePublishes(n: Node, payload: seq<Data>)
    requires n.Wf()
    ensures HandlePropose(n, payload) == Publish(ProposeState(n, payload))
  {
    var n1 := ProposeState(n, payload);
    n1.log.Views(0);
    assert n1.prs.Keys == n.prs.Keys;
    assert |n1.prs| == |n1.prs.Keys| == |n.prs.Keys| == |n.prs|;
  }

  /** Every peer at or above the median Match has acknowledged that much: a quorum has. */
  lemma MedianAcked(h: History, p: Id, n: Node, k: nat) returns (q: set<Id>)
    requires HistOk(h) && NodeOk(h, p, n) && n.role == Leader
    requires |n.prs| >= 1 && k == Median(n.prs) && k > 0
    ensures Quorum(h.peers, q)
    ensures forall v :: v in q ==> exists i :: i >= k && Ack(v, n.term, i) in h.acks
    ensures k <= |n.log.entries| && n.log.entries[k - 1].term == n.term
  {
    q := AtLeast(n.prs, k);
    MedianIsQuorum(n.prs, k);
    assert |n.prs| == |n.prs.Keys|;
    forall v | v in q ensures exists i :: i >= k && Ack(v, n.term, i) in h.acks {
      assert MatchOk(h, n, v);
      assert Ack(v, n.term, n.prs[v].match_) in h.acks;
    }
    var w :| w in n.prs && n.prs[w].match_ == k;
    assert MatchOk(h, n, w);
    assert AckOk(h, Ack(w, n.term, k));
    assert TermOk(h, n.term);
  }

  lemma AdvanceOk(h: History, p: Id, n: Node) returns (h': History)
    requires HistOk(h) && NodeOk(h, p, n) && n.role == Leader
    ensures |n.prs| >= 1
    ensures Accounts(h, h', p, Advance(n, Median(n.prs)))
  {
    assert p in n.prs.Keys;
    assert |n.prs| == |n.prs.Keys| >= 1;
    var k := Median(n.prs);
    h' := h;
    if k > n.log.committed && n.log.TermOrZero(k) == n.term {
      var q := MedianAcked(h, p, n, k);
      h' := LeaderCommitOk(h, p, n, k, q);
      BroadcastAppendOk(h', p, n.(log := n.log.(committed := k)));
    }
  }

  lemma RejectedOk(h: History, p: Id, n: Node, m: Message)
    requires HistOk(h) && NodeOk(h, p, n) && n.role == Leader
    requires m.AppendResponse? && m.from in n.prs && m.from != p
    ensures Accounts(h, h, p, HandleRejected(n, m))
  {
    var n1 := HandleRejected(n, m).node;
    assert MatchOk(h, n, m.from);
    ProgressOk(h, p, n, m.from, n1.prs[m.from]);
    if CanAppend(n1, m.from) {
      AppendToOk(h, p, n1, m.from);
    }
  }

  lemma AcknowledgedOk(h: History, p: Id, n: Node, m: Message) returns (h': History)
    requires HistOk(h) && NodeOk(h, p, n) && n.role == Leader
    requires m.AppendResponse? && MsgOk(h, m) && m.term == n.term && m.from in n.prs && !m.reject
    ensures Accounts(h, h', p, HandleAcknowledged(n, m))
  {
    ProgressOk(h, p, n, m.from, Progress(m.index, m.index + 1));
    h' := AdvanceOk(h, p, Recorded(n, m));
  }

  // ---- dispatch ----------------------------------------------------------------------------

  /** A message the node may be stepped on: a local one, or a sent one addressed to it whose term
      has been reached. */
  ghost predicate Deliverable(h: History, p: Id, n: Node, m: Message) {
    m.Local() || (MsgOk(h, m) && m.to == p && m.term == n.term)
  }

  lemma StepFollowerOk(h: History, p: Id, n: Node, m: Message) returns (h': History)
    requires HistOk(h) && NodeOk(h, p, n) && n.role == Follower
    requires WfMessage(n, m) && Deliverable(h, p, n, m)
    ensures Accounts(h, h', p, StepFollower(n, m))
  {
    h' := h;
    match m
    case Hup => h' := CampaignOk(h, p, n);
    case RequestVote(_, _, _, _, _) => h' := VoteRequestOk(h, p, n, m);
    case Heartbeat(_, from, _, _) => SameRecordOk(h, p, n, n.(lead := from));
    case Append(_, from, _, _, _, _, _) =>
      SameRecordOk(h, p, n, n.(lead := from));
      h' := AppendHandledOk(h, p, n.(lead := from), m);
    case _ =>
  }

  lemma StepCandidateOk(h: History, p: Id, n: Node, m: Message) returns (h': History)
    requires HistOk(h) && NodeOk(h, p, n) && n.role == Candidate
    requires WfMessage(n, m) && Deliverable(h, p, n, m)
    ensures Accounts(h, h', p, StepCandidate(n, m))
  {
    h' := h;
    match m
    case Hup => h' := CampaignOk(h, p, n);
    case RequestVoteResponse(_, _, _, _) => h' := VoteResponseOk(h, p, n, m);
    case Heartbeat(_, from, term, _) => StepDownOk(h, p, n, term, from);
    case Append(_, from, term, _, _, _, _) => StepDownOk(h, p, n, term, from);
    case RequestVote(_, _, _, _, _) => CandidateRefusesOk(h, p, n, m);
    case _ => NothingOk(h, p, n);
  }

  lemma CandidateRefusesOk(h: History, p: Id, n: Node, m: Message)
    requires HistOk(h) && NodeOk(h, p, n) && n.role == Candidate
    requires WfMessage(n, m) && m.RequestVote? && Deliverable(h, p, n, m)
    ensures Accounts(h, h, p, StepCandidate(n, m))
  {
  }

  lemma NothingOk(h: History, p: Id, n: Node)
    requires HistOk(h) && NodeOk(h, p, n)
    ensures Accounts(h, h, p, Out(n, {}))
  {
  }

  /** A leader meets no append or heartbeat of its own term: it is the only sender of those. */
  lemma StepLeaderOk(h: History, p: Id, n: Node, m: Message) returns (h': History)
    requires HistOk(h) && NodeOk(h, p, n) && n.role == Leader
    requires WfMessage(n, m) && Deliverable(h, p, n, m)
    ensures !m.Append? && !m.Heartbeat?
    ensures Accounts(h, h', p, StepLeader(n, m))
  {
    h' := h;
    match m
    case HeartbeatResponse(_, from, _) =>
      if CanAppend(n, from) {
        AppendToOk(h, p, n, from);
      }
    case Propose(payload) => h' := ProposeOk(h, p, n, payload);
    case AppendResponse(_, _, _, reject, _) =>
      if reject {
        RejectedOk(h, p, n, m);
      } else {
        h' := AcknowledgedOk(h, p, n, m);
      }
    case _ =>
  }

  lemma StepRoleOk(h: History, p: Id, n: Node, m: Message) returns (h': History)
    requires HistOk(h) && NodeOk(h, p, n)
    requires WfMessage(n, m) && Deliverable(h, p, n, m)
    ensures Accounts(h, h', p, StepRole(n, m))
  {
    match n.role
    case Follower => h' := StepFollowerOk(h, p, n, m);
    case Candidate => h' := StepCandidateOk(h, p, n, m);
    case Leader => h' := StepLeaderOk(h, p, n, m);
  }

  lemma StepOk(h: History, p: Id, n: Node, m: Message) returns (h': History)
    requires HistOk(h) && NodeOk(h, p, n) && WfMessage(n, m)
    requires m.Local() || (MsgOk(h, m) && m.to == p)
    ensures Accounts(h, h', p, Step(n, m))
  {
    if !m.Local() && m.term > n.term {
      StepDownOk(h, p, n, m.term, NONE);
      h' := StepRoleOk(h, p, BecomeFollower(n, m.term, NONE), m);
    } else if !m.Local() && m.term < n.term {
      h' := h;
    } else {
      h' := StepRoleOk(h, p, n, m);
    }
  }

  /** What a node has sent is what the receiving code expects. */
  lemma MessagesWf(h: History, p: Id, n: Node, m: Message)
    requires HistOk(h) && NodeOk(h, p, n) && MsgOk(h, m)
    ensures WfMessage(n, m)
  {
    if m.Append? {
      assert TermOk(h, m.term);
      var ll := h.terms[m.term].log;
      forall i | 0 <= i < |m.entries|
        ensures m.entries[i].index == m.index + i + 1
      {
        assert m.entries[i] == ll[m.index + i];
      }
    }
  }

  // ---- the commit mark ---------------------------------------------------------------------

  /** An append moves a commit mark back exactly when it is accepted, announces a later commit,
      and ends before the mark. */
  lemma CommitDropsIff(n: Node, m: Message)
    requires n.Wf() && m.Append? && WfMessage(n, m)
    ensures HandleAppend(n, m).node.log.committed < n.log.committed <==>
            AcceptsAppend(n, m) && m.index + |m.entries| < n.log.committed < m.commit
  {
    n.log.Views(m.index);
  }

  /** Such an append exists, though no node of a cluster sends it: an empty one at index 0. */
  lemma CommitCanDrop()
    ensures exists n: Node, m: Message ::
              && n.Wf() && n.log.Ok() && m.Append? && WfMessage(n, m)
              && HandleAppend(n, m).node.log.committed < n.log.committed
  {
    var e := Entry(1, 1, []);
    var n := Node(1, 1, NONE, RaftLog([Entry(0, 0, [])], 1, 0, 0, [e]), map[1 := Progress(0, 1), 2 := Progress(0, 1)],
                  Follower, map[], 2);
    var m := Append(1, 2, 1, 0, 0, [], 2);
    n.log.Views(0);
    CommitDropsIff(n, m);
    assert HandleAppend(n, m).node.log.committed < n.log.committed;
  }

  lemma AppendCommitRises(h: History, p: Id, n: Node, m: Message)
    requires HistOk(h) && NodeOk(h, p, n) && MsgOk(h, m) && m.Append? && m.term == n.term && WfMessage(n, m)
    ensures HandleAppend(n, m).node.log.committed >= n.log.committed
  {
    n.log.Views(m.index);
    CommitDropsIff(n, m);
  }

  /** No step of a node of the cluster moves its commit mark back. */
  lemma StepCommitRises(h: History, p: Id, n: Node, m: Message)
    requires HistOk(h) && NodeOk(h, p, n) && WfMessage(n, m)
    requires m.Local() || (MsgOk(h, m) && m.to == p)
    ensures Step(n, m).node.log.committed >= n.log.committed
  {
    if !m.Local() && m.term > n.term {
      StepDownOk(h, p, n, m.term, NONE);
      RoleCommitRises(h, p, BecomeFollower(n, m.term, NONE), m);
    } else if m.Local() || m.term == n.term {
      RoleCommitRises(h, p, n, m);
    }
  }

  lemma RoleCommitRises(h: History, p: Id, n: Node, m: Message)
    requires HistOk(h) && NodeOk(h, p, n) && WfMessage(n, m) && Deliverable(h, p, n, m)
    ensures StepRole(n, m).node.log.committed >= n.log.committed
  {
    n.log.Views(0);
    if m.Append? && n.role == Follower {
      SameRecordOk(h, p, n, n.(lead := m.from));
      AppendCommitRises(h, p, n.(lead := m.from), m);
    } else if n.role == Leader {
      LeaderCommitRises(h, p, n, m);
    } else if m.RequestVoteResponse? && n.role == Candidate {
      assert StepRole(n, m) == HandleVoteResponse(n, m);
    }
  }

  lemma LeaderCommitRises(h: History, p: Id, n: Node, m: Message)
    requires HistOk(h) && NodeOk(h, p, n) && n.role == Leader && WfMessage(n, m) && Deliverable(h, p, n, m)
    ensures StepLeader(n, m).node.log.committed >= n.log.committed
  {
    match m
    case Propose(payload) =>
      ProposeState(n, payload).log.Views(0);
    case _ =>
  }
}
