/** That commits happen, for every run: what a quorum has reached the leader has committed, and what
    an append says is committed its receiver has. */
module RaftProgress {
  import Collections
  import opened RaftTypes
  import opened RaftLogs
  import opened RaftNode
  import opened RaftCluster
  import opened RaftHistory
  import RaftInvariant
  import opened RaftSafety
  import opened RaftEffects
  import opened RaftStuck

  /** Of a leader: its own Match is the end of its log, no other is past it, and whatever more than
      half of the peers have reached it has committed. */
  ghost predicate Caught(n: Node) {
    && n.id in n.prs && n.prs[n.id].match_ == |n.log.entries|
    && (forall q :: q in n.prs ==> n.prs[q].match_ <= |n.log.entries|)
    && (forall k: nat {:trigger Reached(n.prs, k)} :: Reached(n.prs, k) ==> k <= n.log.committed)
  }

  /** Every Match is backed by an entry of the leader's term. */
  ghost predicate Backed(log: seq<Entry>, term: nat, prs: map<Id, Progress>) {
    forall q {:trigger prs[q]} :: q in prs && prs[q].match_ > 0 ==>
      prs[q].match_ <= |log| && log[prs[q].match_ - 1].term == term
  }

  // ---- steps -------------------------------------------------------------------------------

  lemma OnlySelf(prs: map<Id, Progress>, p: Id, k: nat)
    requires p in prs && |prs| > 1 && forall q :: q in prs && q != p ==> prs[q].match_ < k
    ensures !Reached(prs, k)
  {
    assert Reaching(prs, k) <= {p};
    Collections.SubsetSize(Reaching(prs, k), {p});
  }

  lemma SelfAtLeast(prs: map<Id, Progress>, k: nat, last: nat)
    requires Reached(prs, k) && forall q :: q in prs ==> prs[q].match_ <= last
    ensures k <= last
  {
    assert k > last ==> Reaching(prs, k) == {};
  }

  /** A new leader. */
  lemma NewlyCaught(n: Node, o: Out)
    requires n.Wf() && Leads(n, o)
    ensures Caught(o.node)
  {
    var n' := o.node;
    assert |n'.prs| == |n'.prs.Keys| == |n.prs.Keys| == |n.prs|;
    forall q | q in n'.prs ensures n'.prs[q].match_ <= |n'.log.entries| {
      assert q in n.prs;
    }
    assert n.id in n.prs;
    forall k: nat | Reached(n'.prs, k) ensures k <= n'.log.committed {
      SelfAtLeast(n'.prs, k, |n'.log.entries|);
      if |n.prs| != 1 && k > 0 {
        assert n.id in n'.prs.Keys && |n'.prs.Keys| >= 1;
        OnlySelf(n'.prs, n.id, k);
      }
    }
  }

  /** A proposal. */
  lemma ProposedCaught(n: Node, n': Node)
    requires Caught(n) && n'.id == n.id && |n.log.entries| <= |n'.log.entries|
    requires n'.prs == n.prs[n.id := Progress(|n'.log.entries|, |n'.log.entries| + 1)]
    requires n'.log.committed == if |n.prs| == 1 then |n'.log.entries| else n.log.committed
    ensures Caught(n')
  {
    assert n'.prs.Keys == n.prs.Keys;
    assert |n'.prs| == |n'.prs.Keys| == |n.prs.Keys| == |n.prs| >= 1;
    forall k: nat | Reached(n'.prs, k) ensures k <= n'.log.committed {
      SelfAtLeast(n'.prs, k, |n'.log.entries|);
      if |n.prs| != 1 {
        if k > |n.log.entries| {
          OnlySelf(n'.prs, n.id, k);
        } else {
          assert Reaching(n'.prs, k) == Reaching(n.prs, k);
          assert Reached(n.prs, k);
        }
      }
    }
  }

  /** Match values as before. */
  lemma SameCaught(n: Node, n': Node)
    requires Caught(n) && n'.id == n.id && n'.prs.Keys == n.prs.Keys
    requires n'.log.entries == n.log.entries && n'.log.committed == n.log.committed
    requires forall q :: q in n.prs ==> n'.prs[q].match_ == n.prs[q].match_
    ensures Caught(n')
  {
    assert |n'.prs| == |n'.prs.Keys| == |n.prs.Keys| == |n.prs|;
    forall q | q in n'.prs ensures n'.prs[q].match_ <= |n'.log.entries| {
      assert q in n.prs.Keys;
    }
    forall k: nat | Reached(n'.prs, k) ensures k <= n'.log.committed {
      assert Reaching(n'.prs, k) == Reaching(n.prs, k);
      assert Reached(n.prs, k);
    }
  }

  lemma SameUnlessSome(prs: map<Id, Progress>, k: nat)
    ensures Reaching(prs, k) == Reaching(prs, k + 1) || exists q :: q in prs && prs[q].match_ == k
  {
  }

  lemma LargestIsSome(prs: map<Id, Progress>, k: nat) returns (q: Id)
    requires LargestReached(prs, k)
    ensures q in prs && prs[q].match_ == k
  {
    SameUnlessSome(prs, k);
    q :| q in prs && prs[q].match_ == k;
  }

  lemma LargestIsLargest(prs: map<Id, Progress>, k: nat, j: nat)
    requires LargestReached(prs, k) && Reached(prs, j)
    ensures j <= k
  {
    if j > k {
      assert Reaching(prs, j) <= Reaching(prs, k + 1);
      Collections.SubsetSize(Reaching(prs, j), Reaching(prs, k + 1));
    }
  }

  /** An accepting reply, of a peer that has not more than the leader and with all Match values backed
      by entries of the leader's term. */
  lemma AcceptedCaught(n: Node, m: Message)
    requires n.Wf() && WfMessage(n, m) && m.AppendResponse? && !m.reject && m.term == n.term && n.role == Leader
    requires Caught(n) && m.from != n.id
    requires Backed(n.log.entries, n.term, n.prs[m.from := Progress(m.index, m.index + 1)])
    ensures Caught(Step(n, m).node)
  {
    var prs := n.prs[m.from := Progress(m.index, m.index + 1)];
    assert n.id in prs.Keys;
    assert |prs| == |prs.Keys| >= 1;
    MedianIsLargest(prs);
    var k := Median(prs);
    var q := LargestIsSome(prs, k);
    assert k > 0 ==> prs[q].match_ == k;
    AcceptedCommits(n, m, k);
    AcceptedShape(n, m);
    assert m.from in prs && prs[m.from].match_ == m.index;
    CommittedCaught(n, Step(n, m).node, m.from, k);
  }

  lemma AcceptedCommits(n: Node, m: Message, k: nat)
    requires n.Wf() && WfMessage(n, m) && m.AppendResponse? && !m.reject && m.term == n.term && n.role == Leader
    requires LargestReached(n.prs[m.from := Progress(m.index, m.index + 1)], k)
    requires k > 0 ==> k <= |n.log.entries| && n.log.entries[k - 1].term == n.term
    ensures k <= Step(n, m).node.log.committed && Step(n, m).node.id == n.id
  {
    OnAccepted(n, m, k);
  }

  lemma CommittedCaught(n: Node, n': Node, q: Id, k: nat)
    requires Caught(n) && q != n.id && n'.id == n.id && n'.log.entries == n.log.entries
    requires n'.prs.Keys == n.prs.Keys && (forall r :: r in n.prs && r != q ==> n'.prs[r] == n.prs[r])
    requires q in n'.prs && n'.prs[q].match_ <= |n.log.entries|
    requires LargestReached(n'.prs, k) && k <= n'.log.committed
    ensures Caught(n')
  {
    forall r | r in n'.prs ensures n'.prs[r].match_ <= |n'.log.entries| {
      assert r in n.prs.Keys;
    }
    forall j: nat | Reached(n'.prs, j) ensures j <= n'.log.committed {
      LargestIsLargest(n'.prs, k, j);
    }
  }

  // ---- runs --------------------------------------------------------------------------------

  /** A step of another node, or of the application, leaves a leader's Match values, entries and mark. */
  lemma NotStepped(c: Cluster, a: Action, c': Cluster, p: Id)
    requires Next(c, a, c') && p in c.nodes && (Actor(a) != p || a.Drain?)
    ensures p in c'.nodes
    ensures var n, n' := c.nodes[p], c'.nodes[p];
            n'.(log := n.log) == n && n'.log.entries == n.log.entries && n'.log.committed == n.log.committed
  {
  }

  lemma Stepped(c: Cluster, a: Action, c': Cluster, p: Id)
    requires Next(c, a, c') && p in c.nodes && Actor(a) == p && !a.Drain?
    ensures var n := c.nodes[p];
            p in c'.nodes && n.Wf() && WfMessage(n, Input(a)) && c'.nodes[p] == Step(n, Input(a)).node
  {
  }

  /** A leader that goes on leading: which messages change what matters. */
  lemma LeaderStep(n: Node, m: Message)
    requires n.Wf() && WfMessage(n, m) && LeadsOn(n, Step(n, m).node) && Caught(n)
    requires m.AppendResponse? && !m.reject && m.term == n.term ==>
               m.from != n.id && Backed(n.log.entries, n.term, n.prs[m.from := Progress(m.index, m.index + 1)])
    ensures Caught(Step(n, m).node)
  {
    StepsAsLeader(n, m);
    if !m.Local() && m.term != n.term {
      assert Step(n, m).node == n;
    } else if m.Propose? {
      OnPropose(n, m.payload);
      ProposedCaught(n, Step(n, m).node);
    } else if m.AppendResponse? && m.reject {
      OnRejected(n, m, Hup);
      SameCaught(n, Step(n, m).node);
    } else if m.AppendResponse? {
      AcceptedCaught(n, m);
    } else {
      QuietStep(n, m);
    }
  }

  lemma QuietStep(n: Node, m: Message)
    requires n.Wf() && WfMessage(n, m) && LeadsOn(n, Step(n, m).node) && (m.Local() || m.term == n.term)
    requires !m.Propose? && !m.AppendResponse?
    ensures Step(n, m).node == n
  {
    StepsAsLeader(n, m);
  }

  /** After an accepting reply the Match values are backed by entries of the leader's term. */
  lemma BackedAfter(run: seq<Cluster>, acts: seq<Action>, peers: set<Id>, i: nat, p: Id)
    requires IsRun(run, acts, peers) && i < |run| && p in run[i].nodes && run[i].nodes[p].role == Leader
    ensures var n := run[i].nodes[p]; Backed(n.log.entries, n.term, n.prs)
  {
    var n := run[i].nodes[p];
    forall q | q in n.prs && n.prs[q].match_ > 0
      ensures n.prs[q].match_ <= |n.log.entries| && n.log.entries[n.prs[q].match_ - 1].term == n.term
    {
      var j := MatchSound(run, acts, peers, i, p, q);
    }
  }

  lemma AcceptedShape(n: Node, m: Message)
    requires n.Wf() && WfMessage(n, m) && m.AppendResponse? && !m.reject && m.term == n.term && n.role == Leader
    ensures var n' := Step(n, m).node;
            n'.prs == n.prs[m.from := Progress(m.index, m.index + 1)] && n'.log.entries == n.log.entries && n'.term == n.term
  {
    var prs := n.prs[m.from := Progress(m.index, m.index + 1)];
    assert m.from in prs.Keys;
    assert |prs| == |prs.Keys| >= 1;
    MedianIsLargest(prs);
    OnAccepted(n, m, Median(prs));
  }

  lemma CaughtNext(run: seq<Cluster>, acts: seq<Action>, peers: set<Id>, i: nat, p: Id)
    requires IsRun(run, acts, peers) && i + 1 < |run| && p in run[i].nodes && p in run[i + 1].nodes
    requires run[i + 1].nodes[p].role == Leader
    requires run[i].nodes[p].role == Leader ==> Caught(run[i].nodes[p])
    ensures Caught(run[i + 1].nodes[p])
  {
    var n, a := run[i].nodes[p], acts[i];
    assert Next(run[i], a, run[i + 1]);
    NodeIs(run, acts, peers, i, p);
    if Actor(a) != p || a.Drain? {
      NotStepped(run[i], a, run[i + 1], p);
      SameCaught(n, run[i + 1].nodes[p]);
    } else {
      Stepped(run[i], a, run[i + 1], p);
      if LeadsOn(n, run[i + 1].nodes[p]) {
        CaughtOn(run, acts, peers, i, p);
      } else {
        CaughtFirst(n, Input(a));
      }
    }
  }

  lemma CaughtFirst(n: Node, m: Message)
    requires n.Wf() && WfMessage(n, m)
    requires Step(n, m).node.role == Leader && !LeadsOn(n, Step(n, m).node)
    ensures Caught(Step(n, m).node)
  {
    var n1 := OnlyBecomeLeader(n, m);
    LeadsAfter(n1);
    NewlyCaught(n1, BecomeLeader(n1));
  }

  lemma CaughtOn(run: seq<Cluster>, acts: seq<Action>, peers: set<Id>, i: nat, p: Id)
    requires IsRun(run, acts, peers) && i + 1 < |run| && p in run[i].nodes && p in run[i + 1].nodes
    requires Next(run[i], acts[i], run[i + 1]) && Actor(acts[i]) == p && !acts[i].Drain?
    requires LeadsOn(run[i].nodes[p], run[i + 1].nodes[p]) && Caught(run[i].nodes[p]) && run[i].nodes[p].id == p
    ensures Caught(run[i + 1].nodes[p])
  {
    var n, m := run[i].nodes[p], Input(acts[i]);
    Stepped(run[i], acts[i], run[i + 1], p);
    if m.AppendResponse? && !m.reject && m.term == n.term {
      NotFromSelf(run, acts, peers, i, acts[i]);
      AcceptedShape(n, m);
      BackedAfter(run, acts, peers, i + 1, p);
    }
    LeaderStep(n, m);
  }

  /** No node answers its own append. */
  lemma NotFromSelf(run: seq<Cluster>, acts: seq<Action>, peers: set<Id>, i: nat, a: Action)
    requires IsRun(run, acts, peers) && i < |run| && Enabled(run[i], a) && a.Deliver? && a.m.AppendResponse?
    ensures a.m.from != a.m.to
  {
    var hs := Explain(run, acts, peers);
    assert Inv(run[i], hs[i]);
    assert RaftInvariant.MsgOk(hs[i], a.m);
  }

  /** In every state of every run: whatever more than half of the peers have reached, by the Match
      values of a leader, the leader has committed. */
  lemma {:induction false} QuorumIsCommitted(run: seq<Cluster>, acts: seq<Action>, peers: set<Id>, i: nat, p: Id)
    requires IsRun(run, acts, peers) && i < |run| && p in run[i].nodes && run[i].nodes[p].role == Leader
    ensures Caught(run[i].nodes[p])
    ensures forall k: nat {:trigger Reached(run[i].nodes[p].prs, k)} ::
              Reached(run[i].nodes[p].prs, k) ==> k <= run[i].nodes[p].log.committed
  {
    assert i > 0;
    var j := i - 1;
    assert Next(run[j], acts[j], run[j + 1]);
    assert p in run[j].nodes;
    if run[j].nodes[p].role == Leader {
      QuorumIsCommitted(run, acts, peers, j, p);
    }
    CaughtNext(run, acts, peers, j, p);
  }

  /** In every run: a node that accepts an append has committed what the append says is, and if it had
      committed less it has now committed exactly that. */
  lemma FollowerLearns(run: seq<Cluster>, acts: seq<Action>, peers: set<Id>, i: nat, m: Message)
    requires IsRun(run, acts, peers) && i + 1 < |run| && acts[i] == Deliver(m) && m.Append? && m.to in run[i].nodes
    requires var n := run[i].nodes[m.to];
             && (m.term > n.term || (m.term == n.term && n.role == Follower))
             && Fits(n.log.entries, m)
    ensures m.to in run[i + 1].nodes
    ensures var c := run[i].nodes[m.to].log.committed;
            run[i + 1].nodes[m.to].log.committed == if m.commit > c then m.commit else c
  {
    var n := run[i].nodes[m.to];
    assert Next(run[i], acts[i], run[i + 1]);
    Stepped(run[i], acts[i], run[i + 1], m.to);
    AppendsCarryCommit(run, acts, peers, i, m);
    if m.term > n.term {
      OnNewerTerm(n, m);
      AppendMark(n.(term := m.term, vote := NONE, role := Follower, lead := NONE, votes := map[]), m);
    } else {
      AppendMark(n, m);
    }
  }
}
