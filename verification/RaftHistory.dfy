/** What a run has established so far, as plain data: who led each term and with which log, who
    voted for whom, which candidacies were opened, which log prefixes were acknowledged and which
    were acknowledged by a quorum. The safety argument of section 5.4.3 of the Raft paper is made
    here, on histories alone, and is carried over to runs in RaftInvariant and RaftSafety. */
module RaftHistory {
  import opened Collections
  import opened RaftTypes

  /** A term with a leader: `init` is the log the leader was elected with, `log` its log now. */
  datatype TermRec = TermRec(leader: Id, voters: set<Id>, init: seq<Entry>, log: seq<Entry>)

  datatype Ballot = Ballot(node: Id, term: nat)

  /** `node` held the first `index` entries of the log of the leader of `term` while in that term. */
  datatype Ack = Ack(node: Id, term: nat, index: nat)

  /** A prefix of the log of the leader of `term`, acknowledged by a quorum. */
  datatype Chosen = Chosen(term: nat, index: nat, quorum: set<Id>)

  datatype History = History(
    peers: set<Id>,
    terms: map<nat, TermRec>,
    votes: map<Ballot, Id>,
    bids: map<Ballot, seq<Entry>>,
    acks: set<Ack>,
    chosen: set<Chosen>)

  // ---- quorums -----------------------------------------------------------------------------

  predicate Quorum(peers: set<Id>, q: set<Id>) {
    q <= peers && |q| > |peers| / 2
  }

  lemma QuorumsMeet(peers: set<Id>, q: set<Id>, r: set<Id>) returns (v: Id)
    requires Quorum(peers, q) && Quorum(peers, r)
    ensures v in q && v in r
  {
    if q * r == {} {
      assert |q + r| == |q| + |r|;
      assert q + r <= peers;
      SubsetSize(q + r, peers);
      assert false;
    }
    v :| v in q * r;
  }

  // ---- well-formed histories ---------------------------------------------------------------

  /** Every entry of `log` came from the leader of its term, with everything before it. */
  ghost predicate LogOk(h: History, log: seq<Entry>) {
    && Numbered(log, 0)
    && forall i {:trigger FromLeader(h, log, i)} :: 0 <= i < |log| ==> FromLeader(h, log, i)
  }

  ghost predicate FromLeader(h: History, log: seq<Entry>, i: nat)
    requires i < |log|
  {
    var t := log[i].term;
    t in h.terms && i < |h.terms[t].log| && log[..i + 1] == h.terms[t].log[..i + 1]
  }

  ghost predicate TermsBelow(log: seq<Entry>, t: nat) {
    forall i :: 0 <= i < |log| ==> log[i].term < t
  }

  /** A log that ends in a term above `t`, or that holds the first k entries of the leader of `t`. */
  ghost predicate Covers(h: History, log: seq<Entry>, t: nat, k: nat)
    requires t in h.terms && k <= |h.terms[t].log|
  {
    LastTerm(log) > t || h.terms[t].log[..k] <= log
  }

  ghost predicate TermOk(h: History, t: nat)
    requires t in h.terms
  {
    var r := h.terms[t];
    && t >= 1
    && r.leader in h.peers
    && Quorum(h.peers, r.voters)
    && (forall v :: v in r.voters ==> Ballot(v, t) in h.votes && h.votes[Ballot(v, t)] == r.leader)
    && Ballot(r.leader, t) in h.bids && h.bids[Ballot(r.leader, t)] == r.init
    && r.init < r.log
    && TermsBelow(r.init, t)
    && (forall i :: |r.init| <= i < |r.log| ==> r.log[i].term == t)
    && LogOk(h, r.log)
  }

  ghost predicate AckOk(h: History, a: Ack) {
    && a.term in h.terms
    && |h.terms[a.term].init| < a.index <= |h.terms[a.term].log|
  }

  ghost predicate BidOk(h: History, b: Ballot)
    requires b in h.bids
  {
    && b.term >= 1
    && LogOk(h, h.bids[b])
    && TermsBelow(h.bids[b], b.term)
  }

  /** A vote went to a candidate whose log covers all the voter had acknowledged before. */
  ghost predicate VoteOk(h: History, b: Ballot)
    requires b in h.votes
  {
    var bid := Ballot(h.votes[b], b.term);
    && bid in h.bids
    && forall a :: a in h.acks && a.node == b.node && a.term < b.term && AckOk(h, a) ==>
                     Covers(h, h.bids[bid], a.term, a.index)
  }

  ghost predicate ChosenOk(h: History, x: Chosen) {
    && x.term in h.terms
    && x.index <= |h.terms[x.term].log|
    && Quorum(h.peers, x.quorum)
    && forall v :: v in x.quorum ==> exists k :: k >= x.index && Ack(v, x.term, k) in h.acks
  }

  ghost predicate HistOk(h: History) {
    && (forall t {:trigger TermOk(h, t)} :: t in h.terms ==> TermOk(h, t))
    && (forall b {:trigger BidOk(h, b)} :: b in h.bids ==> BidOk(h, b))
    && (forall a {:trigger AckOk(h, a)} :: a in h.acks ==> AckOk(h, a))
    && (forall b {:trigger VoteOk(h, b)} :: b in h.votes ==> VoteOk(h, b))
    && (forall x {:trigger ChosenOk(h, x)} :: x in h.chosen ==> ChosenOk(h, x))
  }

  // ---- consequences ------------------------------------------------------------------------

  /** Log matching (section 5.3): logs that share an entry's index and term agree up to there. */
  lemma LogsMatch(h: History, l: seq<Entry>, m: seq<Entry>, i: nat)
    requires LogOk(h, l) && LogOk(h, m)
    requires i < |l| && i < |m| && l[i].term == m[i].term
    ensures l[..i + 1] == m[..i + 1]
  {
    assert FromLeader(h, l, i) && FromLeader(h, m, i);
  }

  /** Terms never decrease along a log. */
  lemma TermsAscend(h: History, log: seq<Entry>, i: nat, j: nat)
    requires HistOk(h) && LogOk(h, log)
    requires i <= j < |log|
    ensures log[i].term <= log[j].term
  {
    assert FromLeader(h, log, j);
    var t := log[j].term;
    var ll := h.terms[t].log;
    assert TermOk(h, t);
    assert log[i] == log[..j + 1][i] == ll[..j + 1][i] == ll[i];
    assert i < |h.terms[t].init| ==> ll[i] == h.terms[t].init[i];
  }

  lemma PrefixOk(h: History, log: seq<Entry>, k: nat)
    requires LogOk(h, log) && k <= |log|
    ensures LogOk(h, log[..k])
  {
    forall i | 0 <= i < k
      ensures FromLeader(h, log[..k], i)
    {
      assert FromLeader(h, log, i);
      assert log[..k][..i + 1] == log[..i + 1];
    }
  }

  /** At least as up to date, as the vote check compares logs (section 5.4.1). */
  predicate UpToDate(lastTerm: nat, lastIndex: nat, log: seq<Entry>) {
    lastTerm > LastTerm(log) || (lastTerm == LastTerm(log) && lastIndex >= |log|)
  }

  /** A log as up to date as one that covers an acknowledged prefix covers it too. */
  lemma UpToDateCovers(h: History, bid: seq<Entry>, log: seq<Entry>, a: Ack)
    requires HistOk(h) && LogOk(h, bid) && LogOk(h, log) && a in h.acks && AckOk(h, a)
    requires UpToDate(LastTerm(bid), |bid|, log)
    requires Covers(h, log, a.term, a.index)
    ensures Covers(h, bid, a.term, a.index)
  {
    var ll := h.terms[a.term].log;
    assert TermOk(h, a.term);
    if LastTerm(log) <= a.term {
      assert ll[..a.index] <= log;
      assert log[a.index - 1] == ll[..a.index][a.index - 1] == ll[a.index - 1];
      TermsAscend(h, log, a.index - 1, |log| - 1);
      if LastTerm(bid) == LastTerm(log) {
        PositiveTerm(h, log);
        LogsMatch2(h, bid, log);
      }
    }
  }

  lemma PositiveTerm(h: History, log: seq<Entry>)
    requires HistOk(h) && LogOk(h, log) && log != []
    ensures LastTerm(log) >= 1
  {
    assert FromLeader(h, log, |log| - 1);
    assert TermOk(h, LastTerm(log));
  }

  /** Of two logs with the same last term the shorter is a prefix of the longer. */
  lemma LogsMatch2(h: History, bid: seq<Entry>, log: seq<Entry>)
    requires HistOk(h) && LogOk(h, bid) && LogOk(h, log)
    requires LastTerm(bid) == LastTerm(log) && |bid| >= |log| > 0
    ensures log <= bid
  {
    assert FromLeader(h, bid, |bid| - 1) && FromLeader(h, log, |log| - 1);
    var ll := h.terms[LastTerm(log)].log;
    assert bid == ll[..|bid|] && log == ll[..|log|];
  }

  /** Leader completeness (section 5.4.3): a prefix acknowledged by a quorum in one term is in
      the log that the leader of any later term was elected with. */
  lemma {:induction false} LeaderCompleteness(h: History, x: Chosen, t: nat)
    requires HistOk(h) && x in h.chosen && t in h.terms && x.term < t
    ensures x.term in h.terms && x.index <= |h.terms[x.term].log|
    ensures h.terms[x.term].log[..x.index] <= h.terms[t].init
    decreases t
  {
    assert ChosenOk(h, x);
    assert TermOk(h, t);
    var r := h.terms[t];
    var ll := h.terms[x.term].log;
    var v := QuorumsMeet(h.peers, x.quorum, r.voters);
    var k :| k >= x.index && Ack(v, x.term, k) in h.acks;
    assert AckOk(h, Ack(v, x.term, k));
    assert VoteOk(h, Ballot(v, t));
    assert Covers(h, r.init, x.term, k);
    var s := LastTerm(r.init);
    if s > x.term {
      assert BidOk(h, Ballot(r.leader, t));
      assert FromLeader(h, r.init, |r.init| - 1);
      LeaderCompleteness(h, x, s);
      assert TermOk(h, s);
      assert r.init == h.terms[s].log[..|r.init|];
      assert |r.init| > |h.terms[s].init|;
      assert h.terms[s].init <= r.init;
    } else {
      assert ll[..x.index] <= ll[..k];
    }
  }

  /** The log of every later leader holds a chosen prefix, and so does that of its own leader. */
  lemma ChosenInLog(h: History, x: Chosen, t: nat)
    requires HistOk(h) && x in h.chosen && t in h.terms && x.term <= t
    ensures x.term in h.terms && x.index <= |h.terms[x.term].log|
    ensures h.terms[x.term].log[..x.index] <= h.terms[t].log
  {
    assert ChosenOk(h, x);
    assert TermOk(h, t);
    if x.term < t {
      LeaderCompleteness(h, x, t);
    }
  }

  /** At most one candidate can hold the votes of a quorum in a term (section 5.2). */
  lemma OneLeader(h: History, t: nat, q: set<Id>, c: Id)
    requires HistOk(h) && t in h.terms && Quorum(h.peers, q)
    requires forall v :: v in q ==> Ballot(v, t) in h.votes && h.votes[Ballot(v, t)] == c
    ensures h.terms[t].leader == c
  {
    assert TermOk(h, t);
    var v := QuorumsMeet(h.peers, q, h.terms[t].voters);
  }

  // ---- growth ------------------------------------------------------------------------------

  ghost predicate RecGrows(r: TermRec, r': TermRec) {
    r'.leader == r.leader && r'.voters == r.voters && r'.init == r.init && r.log <= r'.log
  }

  /** History only accumulates. */
  ghost predicate Grows(h: History, h': History) {
    && h'.peers == h.peers
    && (forall t :: t in h.terms ==> t in h'.terms && RecGrows(h.terms[t], h'.terms[t]))
    && (forall b :: b in h.votes ==> b in h'.votes && h'.votes[b] == h.votes[b])
    && (forall b :: b in h.bids ==> b in h'.bids && h'.bids[b] == h.bids[b])
    && h.acks <= h'.acks
    && h.chosen <= h'.chosen
  }

  lemma GrowsLogOk(h: History, h': History, log: seq<Entry>)
    requires Grows(h, h') && LogOk(h, log)
    ensures LogOk(h', log)
  {
    forall i | 0 <= i < |log|
      ensures FromLeader(h', log, i)
    {
      assert FromLeader(h, log, i);
      var t := log[i].term;
      assert RecGrows(h.terms[t], h'.terms[t]);
      assert h'.terms[t].log[..i + 1] == h.terms[t].log[..i + 1];
    }
  }

  lemma GrowsCovers(h: History, h': History, log: seq<Entry>, t: nat, k: nat)
    requires Grows(h, h') && t in h.terms && k <= |h.terms[t].log|
    ensures t in h'.terms && k <= |h'.terms[t].log|
    ensures Covers(h, log, t, k) <==> Covers(h', log, t, k)
  {
    assert RecGrows(h.terms[t], h'.terms[t]);
    assert h'.terms[t].log[..k] == h.terms[t].log[..k];
  }

  lemma GrowsChosen(h: History, h': History, x: Chosen)
    requires Grows(h, h') && ChosenOk(h, x)
    ensures ChosenOk(h', x)
  {
    assert RecGrows(h.terms[x.term], h'.terms[x.term]);
    forall v | v in x.quorum
      ensures exists k :: k >= x.index && Ack(v, x.term, k) in h'.acks
    {
      var k :| k >= x.index && Ack(v, x.term, k) in h.acks;
      assert Ack(v, x.term, k) in h'.acks;
    }
  }

  /** What was well formed stays so as history grows, if no voter acknowledges anything below a
      term it has voted in. */
  lemma Stable(h: History, h': History)
    requires HistOk(h) && Grows(h, h')
    requires forall a, b :: a in h'.acks && a !in h.acks && b in h.votes && a.node == b.node ==> a.term >= b.term
    ensures forall t :: t in h.terms && h'.terms[t] == h.terms[t] ==> TermOk(h', t)
    ensures forall b :: b in h.bids ==> BidOk(h', b)
    ensures forall a :: a in h.acks ==> AckOk(h', a)
    ensures forall b :: b in h.votes ==> VoteOk(h', b)
    ensures forall x :: x in h.chosen ==> ChosenOk(h', x)
  {
    forall t | t in h.terms && h'.terms[t] == h.terms[t] ensures TermOk(h', t) {
      assert TermOk(h, t);
      GrowsLogOk(h, h', h.terms[t].log);
    }
    forall b | b in h.bids ensures BidOk(h', b) {
      assert BidOk(h, b);
      GrowsLogOk(h, h', h.bids[b]);
    }
    forall a | a in h.acks ensures AckOk(h', a) {
      assert AckOk(h, a);
      assert RecGrows(h.terms[a.term], h'.terms[a.term]);
    }
    forall b | b in h.votes ensures VoteOk(h', b) {
      StableVote(h, h', b);
    }
    forall x | x in h.chosen ensures ChosenOk(h', x) {
      GrowsChosen(h, h', x);
    }
  }

  lemma StableVote(h: History, h': History, b: Ballot)
    requires HistOk(h) && Grows(h, h') && b in h.votes
    requires forall a :: a in h'.acks && a !in h.acks && a.node == b.node ==> a.term >= b.term
    ensures VoteOk(h', b)
  {
    assert VoteOk(h, b);
    var bid := Ballot(h.votes[b], b.term);
    forall a | a in h'.acks && a.node == b.node && a.term < b.term && AckOk(h', a)
      ensures Covers(h', h'.bids[bid], a.term, a.index)
    {
      assert a in h.acks && AckOk(h, a);
      GrowsCovers(h, h', h.bids[bid], a.term, a.index);
    }
  }

  // ---- the ways history grows --------------------------------------------------------------

  /** A candidate opens a bid and votes for itself. */
  function AddBid(h: History, b: Ballot, log: seq<Entry>): History {
    h.(bids := h.bids[b := log])
  }

  lemma AddBidOk(h: History, b: Ballot, log: seq<Entry>)
    requires HistOk(h) && b !in h.bids && b.term >= 1 && LogOk(h, log) && TermsBelow(log, b.term)
    ensures Grows(h, AddBid(h, b, log)) && HistOk(AddBid(h, b, log))
  {
    var h' := AddBid(h, b, log);
    Stable(h, h');
    GrowsLogOk(h, h', log);
    assert BidOk(h', b);
  }

  function AddVote(h: History, b: Ballot, c: Id): History {
    h.(votes := h.votes[b := c])
  }

  lemma AddVoteOk(h: History, b: Ballot, c: Id)
    requires HistOk(h) && b !in h.votes && Ballot(c, b.term) in h.bids
    requires forall a :: a in h.acks && a.node == b.node && a.term < b.term && AckOk(h, a) ==>
                           Covers(h, h.bids[Ballot(c, b.term)], a.term, a.index)
    ensures Grows(h, AddVote(h, b, c)) && HistOk(AddVote(h, b, c))
  {
    var h' := AddVote(h, b, c);
    Stable(h, h');
    forall a | a in h'.acks && a.node == b.node && a.term < b.term && AckOk(h', a)
      ensures Covers(h', h'.bids[Ballot(c, b.term)], a.term, a.index)
    {
      GrowsCovers(h, h', h.bids[Ballot(c, b.term)], a.term, a.index);
    }
    assert VoteOk(h', b);
  }

  /** A candidate with the votes of a quorum becomes the leader of its term. */
  function AddTerm(h: History, t: nat, leader: Id, voters: set<Id>, init: seq<Entry>): History {
    h.(terms := h.terms[t := TermRec(leader, voters, init, init + [Entry(|init| + 1, t, [])])])
  }

  lemma AddTermOk(h: History, t: nat, leader: Id, voters: set<Id>, init: seq<Entry>)
    requires HistOk(h) && t !in h.terms && t >= 1 && leader in h.peers && Quorum(h.peers, voters)
    requires forall v :: v in voters ==> Ballot(v, t) in h.votes && h.votes[Ballot(v, t)] == leader
    requires Ballot(leader, t) in h.bids && h.bids[Ballot(leader, t)] == init
    ensures var h' := AddTerm(h, t, leader, voters, init); Grows(h, h') && HistOk(h')
  {
    var h' := AddTerm(h, t, leader, voters, init);
    var log := h'.terms[t].log;
    Stable(h, h');
    assert BidOk(h', Ballot(leader, t));
    forall i | 0 <= i < |log|
      ensures FromLeader(h', log, i)
    {
      if i < |init| {
        assert FromLeader(h', init, i);
        assert log[..i + 1] == init[..i + 1];
      }
    }
    assert TermOk(h', t);
  }

  /** A leader appends entries of its term. */
  function ExtendLog(h: History, t: nat, more: seq<Entry>): History
    requires t in h.terms
  {
    h.(terms := h.terms[t := h.terms[t].(log := h.terms[t].log + more)])
  }

  lemma ExtendLogOk(h: History, t: nat, more: seq<Entry>)
    requires HistOk(h) && t in h.terms
    requires Numbered(more, |h.terms[t].log|) && forall i :: 0 <= i < |more| ==> more[i].term == t
    ensures var h' := ExtendLog(h, t, more); Grows(h, h') && HistOk(h')
  {
    var h' := ExtendLog(h, t, more);
    var r, r' := h.terms[t], h'.terms[t];
    Stable(h, h');
    assert TermOk(h, t);
    GrowsLogOk(h, h', r.log);
    forall i | 0 <= i < |r'.log|
      ensures FromLeader(h', r'.log, i)
    {
      if i < |r.log| {
        assert FromLeader(h', r.log, i);
        assert r'.log[..i + 1] == r.log[..i + 1];
      }
    }
    assert TermOk(h', t);
  }

  function AddAck(h: History, a: Ack): History {
    h.(acks := h.acks + {a})
  }

  lemma AddAckOk(h: History, a: Ack)
    requires HistOk(h) && AckOk(h, a)
    requires forall b :: b in h.votes && b.node == a.node ==> a.term >= b.term
    ensures Grows(h, AddAck(h, a)) && HistOk(AddAck(h, a))
  {
    var h' := AddAck(h, a);
    Stable(h, h');
    assert AckOk(h', a);
  }

  function AddChosen(h: History, x: Chosen): History {
    h.(chosen := h.chosen + {x})
  }

  lemma AddChosenOk(h: History, x: Chosen)
    requires HistOk(h) && ChosenOk(h, x)
    ensures Grows(h, AddChosen(h, x)) && HistOk(AddChosen(h, x))
  {
    var h' := AddChosen(h, x);
    Stable(h, h');
    GrowsChosen(h, h', x);
  }
}
