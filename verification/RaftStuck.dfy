/** The unguarded `Next--` (raft/raft.go): the one way a leader loses the index to send from, what
    it does then, and that it happens. */
module RaftStuck {
  import opened RaftTypes
  import opened RaftNode
  import opened RaftCluster
  import opened RaftHistory
  import opened RaftSafety

  /** A reply of peer `q` to a leader's append, in the leader's term. */
  predicate Answers(n: Node, m: Message, q: Id) {
    m.AppendResponse? && m.from == q && m.term == n.term
  }

  predicate LeadsOn(n: Node, n': Node) {
    n.role == Leader && n'.role == Leader && n'.term == n.term && n'.id == n.id
  }

  lemma StepsAsLeader(n: Node, m: Message)
    requires n.Wf() && WfMessage(n, m) && LeadsOn(n, Step(n, m).node)
    ensures Step(n, m) == StepLeader(n, m) || (Step(n, m) == Out(n, {}) && !m.Local() && m.term < n.term)
    ensures !m.Append? || m.term < n.term
    ensures !m.Heartbeat? || m.term < n.term
  {
  }

  /** While a node leads, its progress record of a peer changes only with the peer's replies. */
  lemma StepProgress(n: Node, m: Message, q: Id)
    requires n.Wf() && WfMessage(n, m) && LeadsOn(n, Step(n, m).node) && q in n.prs && q != n.id
    ensures q in Step(n, m).node.prs
    ensures Step(n, m).node.prs[q] ==
            if !Answers(n, m, q) then n.prs[q]
            else if m.reject then n.prs[q].(next := if n.prs[q].next == 0 then MAX_UINT64 else n.prs[q].next - 1)
            else Progress(m.index, m.index + 1)
  {
    StepsAsLeader(n, m);
  }

  /** And what it sends the peer is what it can send after the step. */
  lemma StepAppends(n: Node, m: Message, q: Id, a: Message)
    requires n.Wf() && WfMessage(n, m) && LeadsOn(n, Step(n, m).node) && q in n.prs && q != n.id
    requires a in Step(n, m).sent && a.Append? && a.to == q
    ensures q in Step(n, m).node.prs && CanAppend(Step(n, m).node, q)
  {
  }

  // ---- in a cluster ------------------------------------------------------------------------

  /** The step delivers a reply of `q` to leader `p`, in the leader's term. */
  predicate Answered(c: Cluster, a: Action, p: Id, q: Id) {
    p in c.nodes && a.Deliver? && !a.m.Local() && a.m.to == p && Answers(c.nodes[p], a.m, q)
  }

  /** The reject that takes the leader's `Next` from 1 to 0. */
  predicate LastReject(c: Cluster, a: Action, p: Id, q: Id) {
    Answered(c, a, p, q) && a.m.reject && q in c.nodes[p].prs && c.nodes[p].prs[q].next == 1
  }

  ghost predicate NextLeads(c: Cluster, a: Action, c': Cluster, p: Id, q: Id) {
    && Next(c, a, c') && p in c.nodes && p in c'.nodes && LeadsOn(c.nodes[p], c'.nodes[p])
    && c.nodes[p].id == p && q in c.nodes[p].prs && q != p
  }

  lemma ClusterProgress(c: Cluster, a: Action, c': Cluster, p: Id, q: Id)
    requires NextLeads(c, a, c', p, q)
    ensures q in c'.nodes[p].prs
    ensures c'.nodes[p].prs[q] ==
            if !Answered(c, a, p, q) then c.nodes[p].prs[q]
            else if a.m.reject then
              c.nodes[p].prs[q].(next := if c.nodes[p].prs[q].next == 0 then MAX_UINT64 else c.nodes[p].prs[q].next - 1)
            else Progress(a.m.index, a.m.index + 1)
  {
    var n := c.nodes[p];
    if Actor(a) == p && !a.Drain? {
      StepProgress(n, Input(a), q);
    }
  }

  /** New appends to the peer only with an index to send from. */
  lemma ClusterAppends(c: Cluster, a: Action, c': Cluster, p: Id, q: Id, m: Message)
    requires NextLeads(c, a, c', p, q) && Actor(a) == p
    requires m in c'.net && m !in c.net && m.Append? && m.to == q
    ensures q in c'.nodes[p].prs && CanAppend(c'.nodes[p], q)
  {
    StepAppends(c.nodes[p], Input(a), q, m);
  }

  lemma RunLeads(run: seq<Cluster>, acts: seq<Action>, peers: set<Id>, i: nat, p: Id, q: Id)
    requires IsRun(run, acts, peers) && i + 1 < |run| && p in run[i].nodes && q in peers && q != p
    requires p in run[i + 1].nodes && LeadsOn(run[i].nodes[p], run[i + 1].nodes[p])
    ensures NextLeads(run[i], acts[i], run[i + 1], p, q)
    ensures run[i].nodes[p].log.LastIndex() == |run[i].nodes[p].log.entries|
    ensures run[i + 1].nodes[p].log.LastIndex() == |run[i + 1].nodes[p].log.entries| >= |run[i].nodes[p].log.entries|
  {
    assert Next(run[i], acts[i], run[i + 1]);
    NodeIs(run, acts, peers, i, p);
    LogShape(run, acts, peers, i, p, 0, 0);
    LogShape(run, acts, peers, i + 1, p, 0, 0);
    LeaderAppendOnly(run, acts, peers, i, i + 1, p);
    run[i].nodes[p].log.Views(0);
    run[i + 1].nodes[p].log.Views(0);
  }

  lemma SamePeers(run: seq<Cluster>, acts: seq<Action>, peers: set<Id>, hs: seq<History>, i: nat)
    requires IsRun(run, acts, peers) && Explains(run, hs) && i < |run|
    ensures run[i].nodes.Keys == peers == hs[i].peers
  {
    assert Inv(run[0], hs[0]) && Inv(run[i], hs[i]) && Grows(hs[0], hs[i]);
    assert run[0].nodes.Keys == peers;
  }

  lemma NodeIs(run: seq<Cluster>, acts: seq<Action>, peers: set<Id>, i: nat, p: Id)
    requires IsRun(run, acts, peers) && i < |run| && p in run[i].nodes
    ensures run[i].nodes[p].id == p && run[i].nodes[p].prs.Keys == peers
  {
    var hs := Explain(run, acts, peers);
    NodeAt(run, hs, i, p, i);
    SamePeers(run, acts, peers, hs, i);
  }

  // ---- the theorems ------------------------------------------------------------------------

  /** A leader loses the index to send a peer from in exactly one way: by a reject of the peer, in
      its term, with `Next` at 1. */
  lemma StuckIff(run: seq<Cluster>, acts: seq<Action>, peers: set<Id>, i: nat, p: Id, q: Id)
    requires IsRun(run, acts, peers) && i + 1 < |run| && p in run[i].nodes && q in peers && q != p
    requires p in run[i + 1].nodes && LeadsOn(run[i].nodes[p], run[i + 1].nodes[p])
    ensures q in run[i].nodes[p].prs && q in run[i + 1].nodes[p].prs
    ensures CanAppend(run[i].nodes[p], q) ==>
              (!CanAppend(run[i + 1].nodes[p], q) <==> LastReject(run[i], acts[i], p, q))
  {
    RunLeads(run, acts, peers, i, p, q);
    ClusterProgress(run[i], acts[i], run[i + 1], p, q);
    if Answered(run[i], acts[i], p, q) && !acts[i].m.reject && acts[i].m.index > 0 {
      var j := MatchSound(run, acts, peers, i + 1, p, q);
    }
  }

  /** A node becomes leader in one way. */
  lemma OnlyBecomeLeader(n: Node, m: Message) returns (n1: Node)
    requires n.Wf() && WfMessage(n, m)
    requires Step(n, m).node.role == Leader && !LeadsOn(n, Step(n, m).node)
    ensures n1.Wf() && n1.id == n.id && n1.prs == n.prs && n1.log == n.log && Step(n, m).node == BecomeLeader(n1).node
  {
    if m.Hup? {
      n1 := n.(role := Candidate, term := n.term + 1, lead := NONE, vote := n.id, votes := map[n.id := true]);
    } else {
      OnlyByVotes(n, m);
      n1 := n.(votes := n.votes[m.from := !m.reject]);
    }
  }

  lemma OnlyByVotes(n: Node, m: Message)
    requires n.Wf() && WfMessage(n, m) && !m.Hup?
    requires Step(n, m).node.role == Leader && !LeadsOn(n, Step(n, m).node)
    ensures m.RequestVoteResponse? && n.role == Candidate && Step(n, m) == HandleVoteResponse(n, m)
  {
    if !m.Local() && m.term > n.term {
      StaysFollower(BecomeFollower(n, m.term, NONE), m);
    }
  }

  lemma StaysFollower(n: Node, m: Message)
    requires n.Wf() && WfMessage(n, m) && n.role == Follower && !m.Hup?
    ensures StepRole(n, m).node.role == Follower
  {
  }

  /** A new leader has an index to send everyone from. */
  lemma NewLeaderCanAppend(n: Node, m: Message, q: Id)
    requires n.Wf() && WfMessage(n, m) && q in n.prs && q != n.id
    requires Step(n, m).node.role == Leader && !LeadsOn(n, Step(n, m).node)
    ensures q in Step(n, m).node.prs && CanAppend(Step(n, m).node, q)
  {
    var n1 := OnlyBecomeLeader(n, m);
    n.log.Views(0);
    LeaderState(n1).log.Views(0);
  }

  lemma NewlyLeads(c: Cluster, a: Action, c': Cluster, p: Id, q: Id)
    requires Next(c, a, c') && p in c.nodes && c.nodes[p].id == p && q in c.nodes[p].prs && q != p
    requires p in c'.nodes && c'.nodes[p].role == Leader && !LeadsOn(c.nodes[p], c'.nodes[p])
    ensures q in c'.nodes[p].prs && CanAppend(c'.nodes[p], q)
  {
    NewLeaderCanAppend(c.nodes[p], Input(a), q);
  }

  /** So over a whole run: a leader without an index to send a peer from was sent such a reject
      earlier in its term. */
  lemma {:induction false} StuckBecause(run: seq<Cluster>, acts: seq<Action>, peers: set<Id>, i: nat, p: Id, q: Id) returns (j: nat)
    requires IsRun(run, acts, peers) && i < |run| && q in peers && q != p
    requires p in run[i].nodes && run[i].nodes[p].role == Leader && q in run[i].nodes[p].prs && !CanAppend(run[i].nodes[p], q)
    ensures j < i && LastReject(run[j], acts[j], p, q)
    ensures run[j].nodes[p].role == Leader && run[j].nodes[p].term == run[i].nodes[p].term
  {
    assert i > 0;
    j := i - 1;
    assert Next(run[j], acts[j], run[i]);
    assert p in run[j].nodes;
    NodeIs(run, acts, peers, j, p);
    if LeadsOn(run[j].nodes[p], run[i].nodes[p]) {
      StuckIff(run, acts, peers, j, p, q);
      if !CanAppend(run[j].nodes[p], q) {
        j := StuckBecause(run, acts, peers, j, p, q);
      }
    } else {
      NewlyLeads(run[j], acts[j], run[i], p, q);
    }
  }

  /** With `Next` at 0, or wrapped past the log, the leader sends the peer nothing and changes
      nothing, until a reply of it. */
  lemma StuckIsSilent(run: seq<Cluster>, acts: seq<Action>, peers: set<Id>, i: nat, p: Id, q: Id, m: Message)
    requires IsRun(run, acts, peers) && i + 1 < |run| && p in run[i].nodes && q in peers && q != p
    requires p in run[i + 1].nodes && LeadsOn(run[i].nodes[p], run[i + 1].nodes[p])
    requires q in run[i].nodes[p].prs && !Answered(run[i], acts[i], p, q)
    requires var next := run[i].nodes[p].prs[q].next; next == 0 || next > |run[i + 1].nodes[p].log.entries| + 1
    ensures q in run[i + 1].nodes[p].prs && run[i + 1].nodes[p].prs[q] == run[i].nodes[p].prs[q]
    ensures m in run[i + 1].net && m.Append? && m.to == q && Actor(acts[i]) == p ==> m in run[i].net
  {
    RunLeads(run, acts, peers, i, p, q);
    ClusterProgress(run[i], acts[i], run[i + 1], p, q);
    if m in run[i + 1].net && m !in run[i].net && m.Append? && m.to == q && Actor(acts[i]) == p {
      ClusterAppends(run[i], acts[i], run[i + 1], p, q, m);
    }
  }

  /** And a reply sets it right exactly if it accepts: a reject only takes a `Next` of 0 to 2^64 - 1
      and a wrapped one down by 1, both past a log well within 64 bits. A reject is not answered. */
  lemma StuckUntilAccepted(run: seq<Cluster>, acts: seq<Action>, peers: set<Id>, i: nat, p: Id, q: Id, m: Message)
    requires IsRun(run, acts, peers) && i + 1 < |run| && p in run[i].nodes && q in peers && q != p
    requires p in run[i + 1].nodes && LeadsOn(run[i].nodes[p], run[i + 1].nodes[p]) && q in run[i].nodes[p].prs
    requires var next, last := run[i].nodes[p].prs[q].next, |run[i + 1].nodes[p].log.entries|;
             if next == 0 then last + 1 < MAX_UINT64 else next > last + 2
    ensures q in run[i + 1].nodes[p].prs
    ensures CanAppend(run[i + 1].nodes[p], q) <==> Answered(run[i], acts[i], p, q) && !acts[i].m.reject
    ensures Answered(run[i], acts[i], p, q) && acts[i].m.reject && m in run[i + 1].net && m.Append? && m.to == q ==>
              m in run[i].net
  {
    if Answered(run[i], acts[i], p, q) && m in run[i + 1].net && m !in run[i].net && m.Append? && m.to == q {
      RunLeads(run, acts, peers, i, p, q);
      ClusterAppends(run[i], acts[i], run[i + 1], p, q, m);
    }
    RunLeads(run, acts, peers, i, p, q);
    ClusterProgress(run[i], acts[i], run[i + 1], p, q);
    if Answered(run[i], acts[i], p, q) && !acts[i].m.reject && acts[i].m.index > 0 {
      var j := MatchSound(run, acts, peers, i + 1, p, q);
    }
  }

  // ---- it happens --------------------------------------------------------------------------

  lemma ExtendRun(run: seq<Cluster>, acts: seq<Action>, peers: set<Id>, a: Action) returns (c: Cluster)
    requires IsRun(run, acts, peers) && Enabled(run[|run| - 1], a)
    ensures IsRun(run + [c], acts + [a], peers)
    ensures Next(run[|run| - 1], a, c)
  {
    RunsDoNotPanic(run, acts, peers, |run| - 1, a);
    c := Apply(run[|run| - 1], a);
    var run', acts' := run + [c], acts + [a];
    forall i | 0 <= i < |acts'| ensures Next(run'[i], acts'[i], run'[i + 1]) {
      if i < |acts| {
        assert Next(run[i], acts[i], run[i + 1]);
      }
    }
  }

  /** Leader `p` has a reject of `q` of its term in flight, and `k` left to step back by. */
  ghost predicate RejectPending(c: Cluster, p: Id, q: Id, m: Message, k: nat) {
    && p in c.nodes && c.nodes[p].role == Leader && q in c.nodes[p].prs && q != p
    && m in c.net && m.AppendResponse? && m.reject && m.to == p && m.from == q && m.term == c.nodes[p].term
    && c.nodes[p].prs[q].next == k
  }

  lemma RejectDelivered(c: Cluster, c': Cluster, p: Id, q: Id, m: Message, k: nat)
    requires RejectPending(c, p, q, m, k) && k > 0 && Next(c, Deliver(m), c')
    ensures RejectPending(c', p, q, m, k - 1)
  {
    assert Step(c.nodes[p], m) == HandleRejected(c.nodes[p], m);
  }

  /** One reject, delivered again and again, takes `Next` to 0: from every state of every run in
      which a leader has a reject of its term in flight, a run goes on to a state in which it has
      nothing to send from. */
  lemma {:induction false} RejectsStick(run: seq<Cluster>, acts: seq<Action>, peers: set<Id>, p: Id, q: Id, m: Message, k: nat)
    returns (run': seq<Cluster>, acts': seq<Action>)
    requires IsRun(run, acts, peers) && RejectPending(run[|run| - 1], p, q, m, k)
    ensures IsRun(run', acts', peers) && run <= run' && |run'| == |run| + k
    ensures RejectPending(run'[|run'| - 1], p, q, m, 0) && !CanAppend(run'[|run'| - 1].nodes[p], q)
    ensures q in run[|run| - 1].nodes ==>
              q in run'[|run'| - 1].nodes && run'[|run'| - 1].nodes[q] == run[|run| - 1].nodes[q]
    decreases k
  {
    if k == 0 {
      run', acts' := run, acts;
    } else {
      var c := ExtendRun(run, acts, peers, Deliver(m));
      RejectDelivered(run[|run| - 1], c, p, q, m, k);
      run', acts' := RejectsStick(run + [c], acts + [Deliver(m)], peers, p, q, m, k - 1);
    }
  }

  // ---- a run that gets there ---------------------------------------------------------------

  /** One of two nodes. */
  ghost predicate OneOf(n: Node, p: Id, q: Id) {
    n.Wf() && n.id == p != q && n.prs.Keys == {p, q} && |n.prs| == 2
  }

  lemma Campaigns(n: Node, q: Id)
    requires OneOf(n, n.id, q) && n.role == Follower
    ensures var o := Step(n, Hup);
            && o.node == n.(role := Candidate, term := n.term + 1, lead := NONE, vote := n.id, votes := map[n.id := true])
            && RequestVote(q, n.id, n.term + 1, |n.log.entries|, LastTerm(n.log.entries)) in o.sent
  {
    n.log.Views(|n.log.entries|);
    assert q in n.prs.Keys;
  }

  lemma Grants(n: Node, m: Message)
    requires n.Wf() && m.RequestVote? && WfMessage(n, m) && m.term > n.term
    requires n.log.entries == []
    ensures var o := Step(n, m);
            && o.node.role == Follower && o.node.term == m.term && o.node.log == n.log
            && RequestVoteResponse(m.from, n.id, m.term, false) in o.sent
  {
    var n1 := BecomeFollower(n, m.term, NONE);
    assert Step(n, m) == HandleVoteRequest(n1, m);
    n.log.Views(0);
    assert !RejectsVote(n1, m);
  }

  lemma Wins(n: Node, q: Id)
    requires OneOf(n, n.id, q) && n.role == Candidate && n.votes == map[n.id := true]
    ensures WfMessage(n, RequestVoteResponse(n.id, q, n.term, false))
    ensures var o := Step(n, RequestVoteResponse(n.id, q, n.term, false));
            && o.node == LeaderState(n) && q in o.node.prs && CanAppend(o.node, q)
            && o.node.prs[q].next == |n.log.entries| + 1 && AppendTo(o.node, q) in o.sent
  {
    assert q in n.prs.Keys;
    n.log.Views(0);
    var votes := n.votes[q := true];
    assert Granted(votes) == {n.id, q};
    LeaderState(n).log.Views(0);
  }

  lemma StepsDown(n: Node, m: Message)
    requires n.Wf() && n.role == Leader && m.RequestVote? && WfMessage(n, m) && m.term > n.term
    ensures var n' := Step(n, m).node;
            n'.role == Follower && n'.term == m.term && n'.log == n.log
  {
  }

  lemma Rejects(n: Node, m: Message)
    requires n.Wf() && n.role == Follower && m.Append? && WfMessage(n, m) && m.term == n.term
    requires m.index > |n.log.entries|
    ensures AppendResponse(m.from, n.id, n.term, true, |n.log.entries| + 1) in Step(n, m).sent
    ensures Step(n, m).node.role == Follower && Step(n, m).node.term == n.term
  {
    n.log.Views(0);
  }

  /** Two nodes, `p` with the log `ps` and `q` with none. */
  ghost predicate Two(c: Cluster, p: Id, q: Id, ps: seq<Entry>, t: nat, u: nat) {
    && p in c.nodes && q in c.nodes && p != q
    && c.nodes[p].term == t && c.nodes[p].log.entries == ps
    && c.nodes[q].term == u && c.nodes[q].log.entries == []
  }

  lemma Members(run: seq<Cluster>, acts: seq<Action>, p: Id, q: Id, i: nat)
    requires IsRun(run, acts, {p, q}) && p != q && i < |run|
    ensures p in run[i].nodes && q in run[i].nodes
    ensures OneOf(run[i].nodes[p], p, q) && OneOf(run[i].nodes[q], q, p)
  {
    var hs := Explain(run, acts, {p, q});
    SamePeers(run, acts, {p, q}, hs, i);
    NodeIs(run, acts, {p, q}, i, p);
    NodeIs(run, acts, {p, q}, i, q);
    LogShape(run, acts, {p, q}, i, p, 0, 0);
    LogShape(run, acts, {p, q}, i, q, 0, 0);
    assert |run[i].nodes[p].prs| == |run[i].nodes[p].prs.Keys| && |run[i].nodes[q].prs| == |run[i].nodes[q].prs.Keys|;
  }

  /** A follower campaigns. */
  lemma TakeCampaign(run: seq<Cluster>, acts: seq<Action>, p: Id, q: Id) returns (c: Cluster)
    requires IsRun(run, acts, {p, q}) && p != q
    requires p in run[|run| - 1].nodes && run[|run| - 1].nodes[p].role == Follower
    ensures IsRun(run + [c], acts + [Timeout(p)], {p, q})
    ensures var b := run[|run| - 1];
            && p in c.nodes && q in c.nodes && q in b.nodes && c.nodes[q] == b.nodes[q]
            && c.nodes[p] == b.nodes[p].(role := Candidate, term := b.nodes[p].term + 1, lead := NONE, vote := p, votes := map[p := true])
            && RequestVote(q, p, c.nodes[p].term, |b.nodes[p].log.entries|, LastTerm(b.nodes[p].log.entries)) in c.net
  {
    var b := run[|run| - 1];
    Members(run, acts, p, q, |run| - 1);
    c := ExtendRun(run, acts, {p, q}, Timeout(p));
    Campaigns(b.nodes[p], q);
  }

  /** The other grants its vote. */
  lemma TakeGrant(run: seq<Cluster>, acts: seq<Action>, p: Id, q: Id, m: Message) returns (c: Cluster)
    requires IsRun(run, acts, {p, q}) && p != q
    requires var b := run[|run| - 1];
             && q in b.nodes && b.nodes[q].log.entries == [] && m in b.net
             && m.RequestVote? && m.to == q && m.from == p && m.term > b.nodes[q].term
    ensures IsRun(run + [c], acts + [Deliver(m)], {p, q})
    ensures var b := run[|run| - 1];
            && p in c.nodes && q in c.nodes && p in b.nodes && c.nodes[p] == b.nodes[p]
            && c.nodes[q].role == Follower && c.nodes[q].term == m.term && c.nodes[q].log.entries == []
            && RequestVoteResponse(p, q, m.term, false) in c.net
  {
    var b := run[|run| - 1];
    Members(run, acts, p, q, |run| - 1);
    c := ExtendRun(run, acts, {p, q}, Deliver(m));
    Grants(b.nodes[q], m);
  }

  /** The vote makes a leader. */
  lemma TakeWin(run: seq<Cluster>, acts: seq<Action>, p: Id, q: Id) returns (c: Cluster)
    requires IsRun(run, acts, {p, q}) && p != q
    requires var b := run[|run| - 1];
             && p in b.nodes && b.nodes[p].role == Candidate && b.nodes[p].votes == map[p := true]
             && RequestVoteResponse(p, q, b.nodes[p].term, false) in b.net
    ensures IsRun(run + [c], acts + [Deliver(RequestVoteResponse(p, q, run[|run| - 1].nodes[p].term, false))], {p, q})
    ensures var b := run[|run| - 1];
            && p in c.nodes && q in c.nodes && q in b.nodes && c.nodes[q] == b.nodes[q]
            && b.nodes[p].Wf() && c.nodes[p] == LeaderState(b.nodes[p])
            && q in c.nodes[p].prs && c.nodes[p].prs[q].next == |b.nodes[p].log.entries| + 1
            && CanAppend(c.nodes[p], q) && AppendTo(c.nodes[p], q) in c.net
  {
    var b := run[|run| - 1];
    Members(run, acts, p, q, |run| - 1);
    Wins(b.nodes[p], q);
    c := ExtendRun(run, acts, {p, q}, Deliver(RequestVoteResponse(p, q, b.nodes[p].term, false)));
  }

  /** `p` is elected, over a `q` with an empty log and no later term. */
  lemma Elect(run: seq<Cluster>, acts: seq<Action>, p: Id, q: Id, ps: seq<Entry>, t: nat, u: nat)
    returns (run': seq<Cluster>, acts': seq<Action>)
    requires IsRun(run, acts, {p, q}) && Two(run[|run| - 1], p, q, ps, t, u) && u <= t
    requires run[|run| - 1].nodes[p].role == Follower
    ensures IsRun(run', acts', {p, q})
    ensures var c := run'[|run'| - 1];
            && Two(c, p, q, ps + [Entry(|ps| + 1, t + 1, [])], t + 1, t + 1)
            && c.nodes[p].role == Leader && c.nodes[q].role == Follower
            && q in c.nodes[p].prs && c.nodes[p].prs[q].next == |ps| + 1
            && c.nodes[p].Wf() && CanAppend(c.nodes[p], q) && AppendTo(c.nodes[p], q) in c.net
  {
    var c1 := TakeCampaign(run, acts, p, q);
    var run1, acts1 := run + [c1], acts + [Timeout(p)];
    var m := RequestVote(q, p, t + 1, |ps|, LastTerm(ps));
    var c2 := TakeGrant(run1, acts1, p, q, m);
    var run2, acts2 := run1 + [c2], acts1 + [Deliver(m)];
    var c3 := TakeWin(run2, acts2, p, q);
    run', acts' := run2 + [c3], acts2 + [Deliver(RequestVoteResponse(p, q, t + 1, false))];
  }

  /** `q` campaigns, which deposes `p`. */
  lemma Depose(run: seq<Cluster>, acts: seq<Action>, p: Id, q: Id, ps: seq<Entry>, t: nat)
    returns (run': seq<Cluster>, acts': seq<Action>)
    requires IsRun(run, acts, {p, q}) && Two(run[|run| - 1], p, q, ps, t, t)
    requires run[|run| - 1].nodes[p].role == Leader && run[|run| - 1].nodes[q].role == Follower
    ensures IsRun(run', acts', {p, q})
    ensures Two(run'[|run'| - 1], p, q, ps, t + 1, t + 1) && run'[|run'| - 1].nodes[p].role == Follower
  {
    assert {q, p} == {p, q};
    var c1 := TakeCampaign(run, acts, q, p);
    var run1, acts1 := run + [c1], acts + [Timeout(q)];
    Members(run1, acts1, p, q, |run1| - 1);
    var m := RequestVote(p, q, t + 1, 0, LastTerm([]));
    var c2 := ExtendRun(run1, acts1, {p, q}, Deliver(m));
    StepsDown(c1.nodes[p], m);
    run', acts' := run1 + [c2], acts1 + [Deliver(m)];
  }

  /** The deposed and re-elected leader's first append is rejected. */
  lemma RejectComes(run: seq<Cluster>, acts: seq<Action>, p: Id, q: Id) returns (c: Cluster, a: Action, m: Message)
    requires IsRun(run, acts, {p, q}) && p != q
    requires var b := run[|run| - 1];
             && p in b.nodes && q in b.nodes && b.nodes[p].role == Leader && b.nodes[q].role == Follower
             && b.nodes[p].term == b.nodes[q].term && b.nodes[q].log.entries == [] && b.nodes[p].Wf()
             && q in b.nodes[p].prs && b.nodes[p].prs[q].next == 2 && CanAppend(b.nodes[p], q) && AppendTo(b.nodes[p], q) in b.net
    ensures IsRun(run + [c], acts + [a], {p, q}) && RejectPending(c, p, q, m, 2)
    ensures q in c.nodes && c.nodes[q].role == Follower && c.nodes[q].term == m.term
  {
    var b := run[|run| - 1];
    Members(run, acts, p, q, |run| - 1);
    var x := AppendTo(b.nodes[p], q);
    a := Deliver(x);
    c := ExtendRun(run, acts, {p, q}, a);
    Rejects(b.nodes[q], x);
    m := AppendResponse(p, q, b.nodes[q].term, true, 1);
  }

  lemma Fresh(p: Id, q: Id) returns (run: seq<Cluster>)
    requires p != q && p != NONE && q != NONE
    ensures IsRun(run, [], {p, q}) && Two(run[|run| - 1], p, q, [], 0, 0) && run[|run| - 1].nodes[p].role == Follower
  {
    var peers := {p, q};
    run := [Cluster(map r | r in peers :: NewNode(r, peers), {})];
  }

  /** A leader re-elected before its first append arrived. */
  lemma ElectedTwice(p: Id, q: Id) returns (run: seq<Cluster>, acts: seq<Action>, ps: seq<Entry>)
    requires p != q && p != NONE && q != NONE
    ensures IsRun(run, acts, {p, q}) && |ps| == 1
    ensures var c := run[|run| - 1];
            && Two(c, p, q, ps + [Entry(2, 3, [])], 3, 3)
            && c.nodes[p].role == Leader && c.nodes[q].role == Follower
            && q in c.nodes[p].prs && c.nodes[p].prs[q].next == 2
            && c.nodes[p].Wf() && CanAppend(c.nodes[p], q) && AppendTo(c.nodes[p], q) in c.net
  {
    run := Fresh(p, q);
    run, acts := Elect(run, [], p, q, [], 0, 0);
    ps := run[|run| - 1].nodes[p].log.entries;
    run, acts := Depose(run, acts, p, q, ps, 1);
    run, acts := Elect(run, acts, p, q, ps, 2, 2);
  }

  /** Any two nodes have a run to a leader that has nothing to send its follower from. */
  lemma StuckReachable(p: Id, q: Id) returns (run: seq<Cluster>, acts: seq<Action>)
    requires p != q && p != NONE && q != NONE
    ensures IsRun(run, acts, {p, q})
    ensures var c := run[|run| - 1];
            && p in c.nodes && q in c.nodes && c.nodes[p].role == Leader && c.nodes[q].role == Follower
            && c.nodes[p].term == c.nodes[q].term && q in c.nodes[p].prs && c.nodes[p].prs[q].next == 0
            && !CanAppend(c.nodes[p], q)
  {
    var ps;
    run, acts, ps := ElectedTwice(p, q);
    var c, a, m := RejectComes(run, acts, p, q);
    run, acts := RejectsStick(run + [c], acts + [a], {p, q}, p, q, m, 2);
  }
}
