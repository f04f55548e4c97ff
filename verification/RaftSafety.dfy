/** The promises of Figure 3 of the Raft paper, for every run of the cluster. */
module RaftSafety {
  import opened RaftTypes
  import opened RaftNode
  import opened RaftCluster
  import opened RaftHistory
  import opened RaftInvariant

  // ---- every reachable state is explained by a history -----------------------------------

  ghost predicate Inv(c: Cluster, h: History) {
    && HistOk(h)
    && c.nodes.Keys == h.peers
    && (forall p {:trigger NodeOk(h, p, c.nodes[p])} :: p in c.nodes ==> NodeOk(h, p, c.nodes[p]))
    && (forall m {:trigger MsgOk(h, m)} :: m in c.net ==> MsgOk(h, m))
  }

  lemma InitInv(c: Cluster, peers: set<Id>) returns (h: History)
    requires Init(c, peers)
    ensures Inv(c, h) && h.acks == {}
  {
    h := History(peers, map[], map[], map[], {}, {});
    forall p | p in c.nodes ensures NodeOk(h, p, c.nodes[p]) {
      var n := NewNode(p, peers);
      assert n.log.Ok();
      assert LogPart(h, p, n);
    }
  }

  /** In a reachable state no enabled step panics. */
  lemma EnabledIsSafe(c: Cluster, a: Action, h: History)
    requires Inv(c, h) && Enabled(c, a)
    ensures NoPanic(c, a)
  {
    var n := c.nodes[Actor(a)];
    assert NodeOk(h, Actor(a), n);
    if a.Deliver? {
      MessagesWf(h, Actor(a), n, a.m);
    }
  }

  lemma NextInv(c: Cluster, a: Action, c': Cluster, h: History) returns (h': History)
    requires Inv(c, h) && Next(c, a, c')
    ensures Inv(c', h') && Grows(h, h')
    ensures NewAcksIn(h, h', c'.nodes[Actor(a)].term)
    ensures forall k :: k in h'.acks && k !in h.acks ==> k.node == Actor(a)
  {
    var p := Actor(a);
    var n := c.nodes[p];
    assert NodeOk(h, p, n);
    if a.Drain? {
      h' := h;
      SameRecordOk(h, p, n, n.(log := n.log.Drain()));
    } else {
      h' := StepOk(h, p, n, Input(a));
    }
    var o := Outcome(c, a);
    assert Accounts(h, h', p, o);
    UpdateInv(c, h, h', p, o);
  }

  lemma UpdateInv(c: Cluster, h: History, h': History, p: Id, o: Out)
    requires Inv(c, h) && p in c.nodes && Accounts(h, h', p, o)
    ensures Inv(Cluster(c.nodes[p := o.node], c.net + o.sent), h')
  {
    var c' := Cluster(c.nodes[p := o.node], c.net + o.sent);
    forall q | q in c'.nodes ensures NodeOk(h', q, c'.nodes[q]) {
      if q != p {
        OtherNodeOk(h, h', p, q, c.nodes[q]);
      }
    }
    forall m | m in c'.net ensures MsgOk(h', m) {
      if m in c.net {
        MsgStaysOk(h, h', m);
      }
    }
  }

  lemma GrowsTrans(h: History, h1: History, h2: History)
    requires Grows(h, h1) && Grows(h1, h2)
    ensures Grows(h, h2)
  {
    forall t | t in h.terms
      ensures t in h2.terms && RecGrows(h.terms[t], h2.terms[t])
    {
      assert RecGrows(h.terms[t], h1.terms[t]) && RecGrows(h1.terms[t], h2.terms[t]);
    }
  }

  /** An acknowledgement was given in some state up to `i` of the run. */
  ghost predicate Witnessed(run: seq<Cluster>, i: nat, h: History, a: Ack)
    requires i < |run|
  {
    exists j :: 0 <= j <= i && Held(run[j], h, a)
  }

  ghost predicate Held(c: Cluster, h: History, a: Ack) {
    && a.node in c.nodes && c.nodes[a.node].term == a.term
    && a.term in h.terms && a.index <= |h.terms[a.term].log|
    && h.terms[a.term].log[..a.index] <= c.nodes[a.node].log.entries
  }

  /** Histories `hs` explain a run, state by state. */
  ghost predicate Explains(run: seq<Cluster>, hs: seq<History>) {
    && |hs| == |run|
    && (forall i {:trigger Inv(run[i], hs[i])} :: 0 <= i < |run| ==> Inv(run[i], hs[i]))
    && (forall i, j {:trigger Grows(hs[i], hs[j])} :: 0 <= i <= j < |run| ==> Grows(hs[i], hs[j]))
    && (forall i, a {:trigger Witnessed(run, i, hs[i], a)} ::
          0 <= i < |run| && a in hs[i].acks ==> Witnessed(run, i, hs[i], a))
  }

  lemma {:induction false} Explain(run: seq<Cluster>, acts: seq<Action>, peers: set<Id>) returns (hs: seq<History>)
    requires IsRun(run, acts, peers)
    ensures Explains(run, hs)
    decreases |run|
  {
    if |acts| == 0 {
      var h := InitInv(run[0], peers);
      hs := [h];
    } else {
      var k := |acts| - 1;
      var run0, acts0 := run[..k + 1], acts[..k];
      forall i | 0 <= i < k ensures Next(run0[i], acts0[i], run0[i + 1]) {
        assert Next(run[i], acts[i], run[i + 1]);
      }
      var hs0 := Explain(run0, acts0, peers);
      assert run0[k] == run[k];
      var h' := NextInv(run[k], acts[k], run[k + 1], hs0[k]);
      hs := hs0 + [h'];
      ExtendExplanation(run, acts[k], hs0, h');
    }
  }

  lemma ExtendExplanation(run: seq<Cluster>, a: Action, hs: seq<History>, h': History)
    requires |run| >= 2 && Explains(run[..|run| - 1], hs)
    requires Enabled(run[|run| - 2], a)
    requires Inv(run[|run| - 1], h') && Grows(hs[|run| - 2], h')
    requires Actor(a) in run[|run| - 1].nodes
    requires NewAcksIn(hs[|run| - 2], h', run[|run| - 1].nodes[Actor(a)].term)
    requires forall k :: k in h'.acks && k !in hs[|run| - 2].acks ==> k.node == Actor(a)
    ensures Explains(run, hs + [h'])
  {
    var n := |run| - 1;
    var hs' := hs + [h'];
    var run0 := run[..n];
    forall i | 0 <= i < |run| ensures Inv(run[i], hs'[i]) {
      if i < n {
        assert Inv(run0[i], hs[i]);
      }
    }
    forall i, j | 0 <= i <= j < |run| ensures Grows(hs'[i], hs'[j]) {
      if i < j == n {
        assert Grows(hs[i], hs[n - 1]);
        GrowsTrans(hs[i], hs[n - 1], h');
      }
    }
    forall i, k | 0 <= i < |run| && k in hs'[i].acks ensures Witnessed(run, i, hs'[i], k) {
      if i < n {
        assert Witnessed(run0, i, hs[i], k);
        var j :| 0 <= j <= i && Held(run0[j], hs[i], k);
        assert Held(run[j], hs[i], k);
      } else {
        LastWitness(run, hs, h', k);
      }
    }
  }

  lemma LastWitness(run: seq<Cluster>, hs: seq<History>, h': History, k: Ack)
    requires |run| >= 2 && Explains(run[..|run| - 1], hs)
    requires Inv(run[|run| - 1], h') && Grows(hs[|run| - 2], h') && k in h'.acks
    requires k !in hs[|run| - 2].acks ==> k.node in run[|run| - 1].nodes && run[|run| - 1].nodes[k.node].term == k.term
    ensures Witnessed(run, |run| - 1, h', k)
  {
    var n := |run| - 1;
    var run0 := run[..n];
    assert AckOk(h', k);
    if k in hs[n - 1].acks {
      assert Witnessed(run0, n - 1, hs[n - 1], k);
      var j :| 0 <= j <= n - 1 && Held(run0[j], hs[n - 1], k);
      assert RecGrows(hs[n - 1].terms[k.term], h'.terms[k.term]);
      assert Held(run[j], h', k);
    } else {
      var node := run[n].nodes[k.node];
      assert NodeOk(h', k.node, node);
      assert Covers(h', node.log.entries, k.term, k.index);
      assert LastTerm(node.log.entries) <= node.term;
      assert Held(run[n], h', k);
    }
  }

  /** State `i` of an explained run, seen at one node; history there grows into any later one. */
  lemma NodeAt(run: seq<Cluster>, hs: seq<History>, i: nat, p: Id, j: nat)
    requires Explains(run, hs) && i <= j < |run| && p in run[i].nodes
    ensures HistOk(hs[i]) && HistOk(hs[j]) && NodeOk(hs[i], p, run[i].nodes[p]) && Grows(hs[i], hs[j])
  {
    assert Inv(run[i], hs[i]) && Inv(run[j], hs[j]);
  }

  // ---- the theorems ------------------------------------------------------------------------

  /** No step of a run can panic: the nodes stay well formed, and so is every message in flight. */
  lemma RunsDoNotPanic(run: seq<Cluster>, acts: seq<Action>, peers: set<Id>, i: nat, a: Action)
    requires IsRun(run, acts, peers) && i < |run| && Enabled(run[i], a)
    ensures NoPanic(run[i], a)
  {
    var hs := Explain(run, acts, peers);
    assert Inv(run[i], hs[i]);
    EnabledIsSafe(run[i], a, hs[i]);
  }

  /** Election safety: over a whole run at most one node is ever leader in a term. */
  lemma ElectionSafety(run: seq<Cluster>, acts: seq<Action>, peers: set<Id>, i: nat, p: Id, j: nat, q: Id)
    requires IsRun(run, acts, peers) && i <= j < |run| && p in run[i].nodes && q in run[j].nodes
    requires run[i].nodes[p].role == Leader && run[j].nodes[q].role == Leader
    requires run[i].nodes[p].term == run[j].nodes[q].term
    ensures p == q
  {
    var hs := Explain(run, acts, peers);
    var t := run[i].nodes[p].term;
    NodeAt(run, hs, i, p, j);
    NodeAt(run, hs, j, q, j);
    assert RecGrows(hs[i].terms[t], hs[j].terms[t]);
  }

  /** Leader append-only: while a node leads a term its log only grows. */
  lemma LeaderAppendOnly(run: seq<Cluster>, acts: seq<Action>, peers: set<Id>, i: nat, j: nat, p: Id)
    requires IsRun(run, acts, peers) && i <= j < |run| && p in run[i].nodes && p in run[j].nodes
    requires run[i].nodes[p].role == Leader && run[j].nodes[p].role == Leader
    requires run[i].nodes[p].term == run[j].nodes[p].term
    ensures run[i].nodes[p].log.entries <= run[j].nodes[p].log.entries
  {
    var hs := Explain(run, acts, peers);
    var t := run[i].nodes[p].term;
    NodeAt(run, hs, i, p, j);
    NodeAt(run, hs, j, p, j);
    assert RecGrows(hs[i].terms[t], hs[j].terms[t]);
  }

  /** Log matching, also between logs of different states of the run: entries of the same index
      and term have the same data and the same predecessors. */
  lemma LogMatching(run: seq<Cluster>, acts: seq<Action>, peers: set<Id>, i: nat, p: Id, j: nat, q: Id, k: nat)
    requires IsRun(run, acts, peers) && i <= j < |run| && p in run[i].nodes && q in run[j].nodes
    requires k < |run[i].nodes[p].log.entries| && k < |run[j].nodes[q].log.entries|
    requires run[i].nodes[p].log.entries[k].term == run[j].nodes[q].log.entries[k].term
    ensures run[i].nodes[p].log.entries[..k + 1] == run[j].nodes[q].log.entries[..k + 1]
  {
    var hs := Explain(run, acts, peers);
    NodeAt(run, hs, i, p, j);
    NodeAt(run, hs, j, q, j);
    GrowsLogOk(hs[i], hs[j], run[i].nodes[p].log.entries);
    LogsMatch(hs[j], run[i].nodes[p].log.entries, run[j].nodes[q].log.entries, k);
  }

  /** Log shape: numbered from 1, terms ascending and never above the node's, marks in order, and
      the persisted part equal to what storage holds. */
  lemma LogShape(run: seq<Cluster>, acts: seq<Action>, peers: set<Id>, i: nat, p: Id, k: nat, l: nat)
    requires IsRun(run, acts, peers) && i < |run| && p in run[i].nodes
    ensures run[i].nodes[p].log.Ok()
    ensures var log := run[i].nodes[p].log.entries;
            k <= l < |log| ==> log[k].term <= log[l].term <= run[i].nodes[p].term
  {
    var hs := Explain(run, acts, peers);
    NodeAt(run, hs, i, p, i);
    var log := run[i].nodes[p].log.entries;
    if k <= l < |log| {
      TermsAscend(hs[i], log, k, l);
    }
  }

  /** Leader completeness: what any node has committed by the time it is in one term is in the
      log of every leader of a later term, whichever of the two comes first in the run. */
  lemma LaterLeadersHold(run: seq<Cluster>, acts: seq<Action>, peers: set<Id>, i: nat, p: Id, j: nat, q: Id)
    requires IsRun(run, acts, peers) && i < |run| && j < |run| && p in run[i].nodes && q in run[j].nodes
    requires run[j].nodes[q].role == Leader && run[i].nodes[p].term < run[j].nodes[q].term
    ensures var log, c := run[i].nodes[p].log.entries, run[i].nodes[p].log.committed;
            c <= |log| && log[..c] <= run[j].nodes[q].log.entries
  {
    var hs := Explain(run, acts, peers);
    var h := hs[|run| - 1];
    var n, m := run[i].nodes[p], run[j].nodes[q];
    var log, c := n.log.entries, n.log.committed;
    NodeAt(run, hs, i, p, |run| - 1);
    NodeAt(run, hs, j, q, |run| - 1);
    GrowsCommit(hs[i], h, log, c, n.term);
    assert RecGrows(hs[j].terms[m.term], h.terms[m.term]);
    assert TermOk(hs[j], m.term);
    CommitInLeader(h, log, c, n.term, m.term);
  }

  /** What is committed in a term is in what every later leader starts from. */
  lemma CommitInLeader(h: History, log: seq<Entry>, c: nat, t: nat, u: nat)
    requires HistOk(h) && CommitOk(h, log, c, t) && u in h.terms && t < u
    ensures c <= |log| && log[..c] <= h.terms[u].init
  {
    if c != 0 {
      var x :| x in h.chosen && CommittedBy(h, log, c, t, x);
      LeaderCompleteness(h, x, u);
      assert log[..c] == h.terms[x.term].log[..x.index][..c];
    }
  }

  /** State-machine safety: two nodes, at any two moments of a run, agree on every entry that
      both have committed. */
  lemma StateMachineSafety(run: seq<Cluster>, acts: seq<Action>, peers: set<Id>, i: nat, p: Id, j: nat, q: Id, k: nat)
    requires IsRun(run, acts, peers) && i < |run| && j < |run| && p in run[i].nodes && q in run[j].nodes
    requires k <= run[i].nodes[p].log.committed && k <= run[j].nodes[q].log.committed
    ensures var log, log' := run[i].nodes[p].log.entries, run[j].nodes[q].log.entries;
            k <= |log| && k <= |log'| && log[..k] == log'[..k]
  {
    var hs := Explain(run, acts, peers);
    var h := hs[|run| - 1];
    var n, m := run[i].nodes[p], run[j].nodes[q];
    NodeAt(run, hs, i, p, |run| - 1);
    NodeAt(run, hs, j, q, |run| - 1);
    GrowsCommit(hs[i], h, n.log.entries, n.log.committed, n.term);
    GrowsCommit(hs[j], h, m.log.entries, m.log.committed, m.term);
    CommitsAgree(h, n.log.entries, n.log.committed, n.term, m.log.entries, m.log.committed, m.term, k);
  }

  lemma CommitsAgree(h: History, log: seq<Entry>, c: nat, t: nat, log': seq<Entry>, c': nat, t': nat, k: nat)
    requires HistOk(h) && CommitOk(h, log, c, t) && CommitOk(h, log', c', t') && k <= c && k <= c'
    ensures k <= |log| && k <= |log'| && log[..k] == log'[..k]
  {
    if k != 0 {
      var x :| x in h.chosen && CommittedBy(h, log, c, t, x);
      var y :| y in h.chosen && CommittedBy(h, log', c', t', y);
      ChosenAgree(h, x, y, k);
      assert log[..k] == log[..c][..k] && log'[..k] == log'[..c'][..k];
      assert h.terms[x.term].log[..c][..k] == h.terms[x.term].log[..k];
      assert h.terms[y.term].log[..c'][..k] == h.terms[y.term].log[..k];
    }
  }

  lemma ChosenAgree(h: History, x: Chosen, y: Chosen, k: nat)
    requires HistOk(h) && x in h.chosen && y in h.chosen && k <= x.index && k <= y.index
    ensures x.term in h.terms && y.term in h.terms
    ensures k <= |h.terms[x.term].log| && k <= |h.terms[y.term].log|
    ensures h.terms[x.term].log[..k] == h.terms[y.term].log[..k]
  {
    assert ChosenOk(h, x) && ChosenOk(h, y);
    if x.term <= y.term {
      ChosenInLog(h, x, y.term);
      assert h.terms[x.term].log[..x.index][..k] == h.terms[x.term].log[..k];
    } else {
      ChosenInLog(h, y, x.term);
      assert h.terms[y.term].log[..y.index][..k] == h.terms[y.term].log[..k];
    }
  }

  /** A leader's Match for a peer is sound: the peer held, in this term, the leader's log that
      far; and the entry there is of the leader's own term. */
  lemma MatchSound(run: seq<Cluster>, acts: seq<Action>, peers: set<Id>, i: nat, p: Id, q: Id) returns (j: nat)
    requires IsRun(run, acts, peers) && i < |run| && p in run[i].nodes
    requires run[i].nodes[p].role == Leader && q in run[i].nodes[p].prs && run[i].nodes[p].prs[q].match_ > 0
    ensures var n := run[i].nodes[p];
            var k := n.prs[q].match_;
            && k <= |n.log.entries| && n.log.entries[k - 1].term == n.term
            && j <= i && q in run[j].nodes && run[j].nodes[q].term == n.term
            && n.log.entries[..k] <= run[j].nodes[q].log.entries
  {
    var hs := Explain(run, acts, peers);
    var h, n := hs[i], run[i].nodes[p];
    var k := n.prs[q].match_;
    NodeAt(run, hs, i, p, i);
    assert MatchOk(h, n, q);
    var a := Ack(q, n.term, k);
    assert AckOk(h, a) && TermOk(h, n.term);
    assert Witnessed(run, i, h, a);
    j :| 0 <= j <= i && Held(run[j], h, a);
  }

  /** Every append in flight carries its sender's log to the end, so its commit mark is within. */
  lemma AppendsCarryCommit(run: seq<Cluster>, acts: seq<Action>, peers: set<Id>, i: nat, m: Message)
    requires IsRun(run, acts, peers) && i < |run| && m in run[i].net && m.Append?
    ensures m.commit <= m.index + |m.entries| && Numbered(m.entries, m.index)
    ensures TermAt([Entry(m.index, m.logTerm, [])] + m.entries, |m.entries| + 1) == m.term
  {
    var hs := Explain(run, acts, peers);
    var h := hs[i];
    assert Inv(run[i], h);
    assert MsgOk(h, m);
    assert TermOk(h, m.term);
    NodeAt(run, hs, i, m.from, i);
    MessagesWf(h, m.from, run[i].nodes[m.from], m);
    if m.entries != [] {
      assert m.entries[|m.entries| - 1] == h.terms[m.term].log[m.index + |m.entries| - 1];
    }
  }

  lemma NextCommitRises(c: Cluster, a: Action, c': Cluster, h: History, p: Id)
    requires Inv(c, h) && Next(c, a, c') && p in c.nodes
    ensures p in c'.nodes && c'.nodes[p].log.committed >= c.nodes[p].log.committed
  {
    if p == Actor(a) && !a.Drain? {
      assert NodeOk(h, p, c.nodes[p]);
      if a.Deliver? {
        assert MsgOk(h, a.m);
      }
      StepCommitRises(h, p, c.nodes[p], Input(a));
    }
  }

  lemma {:induction false} CommitMarkRises(run: seq<Cluster>, acts: seq<Action>, peers: set<Id>, hs: seq<History>,
                                           i: nat, j: nat, p: Id)
    requires IsRun(run, acts, peers) && Explains(run, hs) && i <= j < |run| && p in run[i].nodes
    ensures p in run[j].nodes && run[i].nodes[p].log.committed <= run[j].nodes[p].log.committed
    decreases j
  {
    if i < j {
      var k := j - 1;
      CommitMarkRises(run, acts, peers, hs, i, k, p);
      assert Inv(run[k], hs[k]) && Next(run[k], acts[k], run[k + 1]);
      NextCommitRises(run[k], acts[k], run[k + 1], hs[k], p);
    }
  }

  /** What a node has committed it never loses: its commit mark never moves back, and the entries
      up to it are never cut or replaced. */
  lemma CommittedForever(run: seq<Cluster>, acts: seq<Action>, peers: set<Id>, i: nat, j: nat, p: Id)
    requires IsRun(run, acts, peers) && i <= j < |run| && p in run[i].nodes
    ensures p in run[j].nodes
    ensures var l, l' := run[i].nodes[p].log, run[j].nodes[p].log;
            && l.committed <= l'.committed
            && l.committed <= |l.entries|
            && l.entries[..l.committed] <= l'.entries
  {
    var hs := Explain(run, acts, peers);
    CommitMarkRises(run, acts, peers, hs, i, j, p);
    StateMachineSafety(run, acts, peers, i, p, j, p, run[i].nodes[p].log.committed);
  }
}
