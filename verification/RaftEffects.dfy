/** What a node does on each message, said of its fields and of positions in its log, without the
    functions that compute it (raft/raft.go). */
module RaftEffects {
  import Collections
  import opened RaftTypes
  import opened RaftLogs
  import opened RaftNode
  import opened RaftHistory

  // ---- what is sent ------------------------------------------------------------------------

  /** `m` is the append for peer `q`: everything from `Next` on, after the index and term before it,
      and the commit mark; there is none if `Next` is 0 or past the log. */
  predicate Offer(n: Node, q: Id, m: Message) {
    && q in n.prs && 0 < n.prs[q].next <= |n.log.entries| + 1
    && var prev := n.prs[q].next - 1;
       m == Append(q, n.id, n.term, prev, TermAt(n.log.entries, prev), n.log.entries[prev..], n.log.committed)
  }

  predicate OtherPeer(n: Node, q: Id) {
    q in n.prs && q != n.id
  }

  /** The messages are the appends for all other peers, and no more. */
  ghost predicate OffersAll(n: Node, sent: set<Message>) {
    forall m :: m in sent <==> exists q :: OtherPeer(n, q) && Offer(n, q, m)
  }

  lemma AppendIsOffer(n: Node, q: Id)
    requires n.Wf() && q in n.prs
    ensures CanAppend(n, q) <==> 0 < n.prs[q].next <= |n.log.entries| + 1
    ensures CanAppend(n, q) ==> Offer(n, q, AppendTo(n, q))
  {
    n.log.Views(0);
    if CanAppend(n, q) {
      n.log.Views(n.prs[q].next - 1);
    }
  }

  lemma BroadcastOffersAll(n: Node)
    requires n.Wf()
    ensures OffersAll(n, BroadcastAppend(n))
  {
    forall m ensures m in BroadcastAppend(n) <==> exists q :: OtherPeer(n, q) && Offer(n, q, m) {
      if m in BroadcastAppend(n) {
        var q :| q in n.prs && q != n.id && CanAppend(n, q) && m == AppendTo(n, q);
        AppendIsOffer(n, q);
        assert OtherPeer(n, q) && Offer(n, q, m);
      }
      if q :| OtherPeer(n, q) && Offer(n, q, m) {
        AppendIsOffer(n, q);
        assert m == AppendTo(n, q);
      }
    }
  }

  lemma SendOffers(n: Node, q: Id, m: Message)
    requires n.Wf() && q in n.prs
    ensures m in SendAppend(n, q) <==> Offer(n, q, m)
  {
    AppendIsOffer(n, q);
  }

  // ---- terms -------------------------------------------------------------------------------

  /** A message of an older term is ignored. */
  lemma OnOlderTerm(n: Node, m: Message)
    requires n.Wf() && WfMessage(n, m) && !m.Local() && m.term < n.term
    ensures Step(n, m) == Out(n, {})
  {
  }

  /** One of a newer term makes the node a follower of that term that has not voted, and is then
      handled as one of its own. */
  lemma OnNewerTerm(n: Node, m: Message)
    requires n.Wf() && WfMessage(n, m) && !m.Local() && m.term > n.term
    ensures var f := n.(term := m.term, vote := NONE, role := Follower, lead := NONE, votes := map[]);
            f.Wf() && WfMessage(f, m) && Step(n, m) == Step(f, m)
  {
  }

  /** Messages a role has no use for: replies at a follower, proposals and heartbeat replies away from
      the leader, votes and timeouts at the leader. */
  predicate Useless(role: Role, m: Message) {
    match role
    case Follower => m.Beat? || m.Propose? || m.AppendResponse? || m.RequestVoteResponse? || m.HeartbeatResponse?
    case Candidate => m.Beat? || m.Propose? || m.AppendResponse? || m.HeartbeatResponse?
    case Leader => m.Hup? || m.RequestVoteResponse?
  }

  lemma OnUseless(n: Node, m: Message)
    requires n.Wf() && WfMessage(n, m) && (m.Local() || m.term == n.term) && Useless(n.role, m)
    ensures Step(n, m) == Out(n, {})
  {
  }

  // ---- elections ---------------------------------------------------------------------------

  /** The node as leader, from the candidate `n`: it follows no one, its log has a no-op of the term
      at the end, it knows nothing of the others and sends them everything from the no-op on. */
  ghost predicate Leads(n: Node, o: Out) {
    var last := |n.log.entries| + 1;
    var n' := o.node;
    && n'.id == n.id && n'.term == n.term && n'.role == Leader && n'.lead == n.id && n'.vote == NONE && n'.votes == map[]
    && n'.prs.Keys == n.prs.Keys
    && (forall q {:trigger n'.prs[q]} :: q in n.prs ==>
          n'.prs[q] == if q == n.id then Progress(last, last + 1) else Progress(0, last))
    && n'.log == n.log.(entries := n.log.entries + [Entry(last, n.term, [])],
                        committed := if |n.prs| == 1 then last else n.log.committed)
    && (if |n.prs| == 1 then o.sent == {} else OffersAll(n', o.sent))
  }

  lemma LeadsAfter(n: Node)
    requires n.Wf()
    ensures Leads(n, BecomeLeader(n))
  {
    n.log.Views(0);
    BroadcastOffersAll(LeaderState(n));
    assert LeaderState(n).prs.Keys == n.prs.Keys;
  }

  /** On a timeout a follower or candidate opens a new term, votes for itself and asks every other
      peer for its vote; alone it leads at once. */
  lemma OnTimeout(n: Node)
    requires n.Wf() && n.role != Leader
    ensures var c := n.(role := Candidate, term := n.term + 1, lead := NONE, vote := n.id, votes := map[n.id := true]);
            if |n.prs| == 1 then Leads(c, Step(n, Hup))
            else
              && Step(n, Hup).node == c
              && forall m :: m in Step(n, Hup).sent <==>
                   exists q :: OtherPeer(n, q) && m == RequestVote(q, n.id, n.term + 1, |n.log.entries|, LastTerm(n.log.entries))
  {
    n.log.Views(|n.log.entries|);
    var c := n.(role := Candidate, term := n.term + 1, lead := NONE, vote := n.id, votes := map[n.id := true]);
    assert Step(n, Hup) == Campaign(n);
    if |n.prs| == 1 {
      LeadsAfter(c);
    } else {
      AsksAll(c);
      forall m ensures m in Step(n, Hup).sent <==>
          exists q :: OtherPeer(n, q) && m == RequestVote(q, n.id, n.term + 1, |n.log.entries|, LastTerm(n.log.entries))
      {
        assert forall q :: OtherPeer(n, q) <==> OtherPeer(c, q);
      }
    }
  }

  lemma AsksAll(c: Node)
    requires c.Wf()
    ensures forall m :: m in BroadcastVoteRequest(c) <==>
              exists q :: OtherPeer(c, q) && m == RequestVote(q, c.id, c.term, |c.log.entries|, LastTerm(c.log.entries))
  {
    c.log.Views(|c.log.entries|);
    forall m | m in BroadcastVoteRequest(c)
      ensures exists q :: OtherPeer(c, q) && m == RequestVote(q, c.id, c.term, |c.log.entries|, LastTerm(c.log.entries))
    {
      var q :| q in c.prs && q != c.id && m == RequestVote(q, c.id, c.term, |c.log.entries|, LastTerm(c.log.entries));
      assert OtherPeer(c, q);
    }
  }

  /** A follower grants its vote if and only if it has not voted for another in the term and the
      candidate's log is at least as up to date as its own (section 5.4.1). */
  lemma OnVoteRequest(n: Node, m: Message)
    requires n.Wf() && WfMessage(n, m) && m.RequestVote? && m.term == n.term && n.role == Follower
    ensures var grants := (n.vote == NONE || n.vote == m.from) && UpToDate(m.logTerm, m.index, n.log.entries);
            && Step(n, m).node == (if grants then n.(vote := m.from) else n)
            && Step(n, m).sent == {RequestVoteResponse(m.from, n.id, n.term, !grants)}
  {
    n.log.Views(|n.log.entries|);
    assert Step(n, m) == HandleVoteRequest(n, m);
  }

  /** Candidates and leaders refuse, a candidate that asks itself apart. */
  lemma OnVoteRequestElsewhere(n: Node, m: Message)
    requires n.Wf() && WfMessage(n, m) && m.RequestVote? && m.term == n.term && n.role != Follower
    ensures Step(n, m) == Out(n, if n.role == Candidate && m.from == n.id then {}
                                 else {RequestVoteResponse(m.from, n.id, n.term, true)})
  {
  }

  /** The voters that said `yes`, or no. */
  function Voters(votes: map<Id, bool>, yes: bool): set<Id> {
    set q | q in votes && votes[q] == yes
  }

  /** A candidate leads once more than half of the peers have granted their votes, and gives up once
      more than half have refused. */
  lemma OnVote(n: Node, m: Message)
    requires n.Wf() && WfMessage(n, m) && m.RequestVoteResponse? && m.term == n.term && n.role == Candidate
    ensures var votes := n.votes[m.from := !m.reject];
            if 2 * |Voters(votes, true)| > |n.prs| then Leads(n, Step(n, m))
            else if 2 * |Voters(votes, false)| > |n.prs| then
              Step(n, m) == Out(n.(role := Follower, lead := NONE, votes := map[]), {})
            else Step(n, m) == Out(n.(votes := votes), {})
  {
    var votes := n.votes[m.from := !m.reject];
    assert Voters(votes, true) == Granted(votes) && Voters(votes, false) == Refused(votes);
    assert Step(n, m) == HandleVoteResponse(n, m);
    LeadsAfter(n.(votes := votes));
    SameOffers(n.(votes := votes), n, BecomeLeader(n.(votes := votes)));
  }

  lemma SameOffers(c: Node, n: Node, o: Out)
    requires Leads(c, o) && c == n.(votes := c.votes)
    ensures Leads(n, o)
  {
  }

  // ---- appends -----------------------------------------------------------------------------

  /** The log has an entry of the same term where entry `i` of `es` would go. */
  predicate Has(log: seq<Entry>, es: seq<Entry>, start: nat, i: nat)
    requires i < |es|
  {
    start + i < |log| && log[start + i].term == es[i].term
  }

  /** `k` is the position of the first entry the log does not have, or their number. */
  ghost predicate FirstNew(log: seq<Entry>, es: seq<Entry>, start: nat, k: nat) {
    && k <= |es| && (forall i :: 0 <= i < k ==> Has(log, es, start, i))
    && (k < |es| ==> !Has(log, es, start, k))
  }

  lemma {:induction false} FindFirstNew(log: seq<Entry>, es: seq<Entry>, start: nat, i: nat) returns (k: nat)
    requires i <= |es| && forall j :: 0 <= j < i ==> Has(log, es, start, j)
    ensures FirstNew(log, es, start, k)
    decreases |es| - i
  {
    if i == |es| || !Has(log, es, start, i) {
      k := i;
    } else {
      k := FindFirstNew(log, es, start, i + 1);
    }
  }

  lemma MergeStep(l: RaftLog, es: seq<Entry>, start: nat, i: nat, l1: RaftLog)
    requires l.Wf() && Numbered(es, start) && i < |es| && start + i <= |l.entries|
    requires 1 <= es[i].index <= |l.entries| + 1 && MergeOne(l, es[i]) == l1
    ensures l1.Wf() && start + (i + 1) <= |l1.entries|
    ensures MergeFrom(l, es, start, i) == MergeFrom(l1, es, start, i + 1)
  {
  }

  lemma {:induction false} MergeAppends(l: RaftLog, es: seq<Entry>, start: nat, i: nat)
    requires l.Wf() && Numbered(es, start) && i <= |es| && start + i == |l.entries|
    ensures MergeFrom(l, es, start, i) == l.(entries := l.entries + es[i..])
    decreases |es| - i
  {
    if i < |es| {
      var l1 := l.(entries := l.entries + [es[i]]);
      MergeOneAppends(l, es[i]);
      MergeStep(l, es, start, i, l1);
      MergeAppends(l1, es, start, i + 1);
      RestOf(l.entries, es, i);
    } else {
      assert l.entries + es[i..] == l.entries;
    }
  }

  lemma MergeOneAppends(l: RaftLog, e: Entry)
    requires l.Wf() && e.index == |l.entries| + 1
    ensures MergeOne(l, e) == l.(entries := l.entries + [e])
  {
    l.Views(e.index);
  }

  lemma MergeCuts(l: RaftLog, e: Entry)
    requires l.Wf() && 1 <= e.index <= |l.entries| + 1
    requires !(e.index <= |l.entries| && l.entries[e.index - 1].term == e.term)
    ensures MergeOne(l, e) == l.(stabled := Min(l.stabled, e.index - 1), entries := l.entries[..e.index - 1] + [e])
  {
    l.Views(e.index);
    if e.index <= |l.entries| {
      assert l.entries[0].index == 1;
    } else {
      assert l.entries[..e.index - 1] == l.entries;
    }
  }

  lemma MergeSkips(l: RaftLog, e: Entry)
    requires l.Wf() && 1 <= e.index <= |l.entries| && l.entries[e.index - 1].term == e.term
    ensures MergeOne(l, e) == l
  {
    l.Views(e.index);
  }

  /** The log after an accepted append: as it was if it has all entries, else cut at the first it does
      not have, with that and the rest put there; the stable mark falls to the cut. */
  function Spliced(l: RaftLog, es: seq<Entry>, start: nat, k: nat): RaftLog
    requires k <= |es| && start + k <= |l.entries|
  {
    if k == |es| then l
    else l.(stabled := if l.stabled < start + k then l.stabled else start + k,
            entries := l.entries[..start + k] + es[k..])
  }

  /** Merging from entry `i` on gives `goal`. */
  ghost predicate Gives(l: RaftLog, es: seq<Entry>, start: nat, i: nat, goal: RaftLog) {
    && l.Wf() && Numbered(es, start) && i <= |es| && start + i <= |l.entries|
    && MergeFrom(l, es, start, i) == goal
  }

  lemma {:induction false} SkipsTo(l: RaftLog, es: seq<Entry>, start: nat, i: nat, k: nat, goal: RaftLog)
    requires Gives(l, es, start, i, goal) && i <= k <= |es| && forall j :: i <= j < k ==> Has(l.entries, es, start, j)
    ensures Gives(l, es, start, k, goal)
    decreases k - i
  {
    if i < k {
      SkipsNext(l, es, start, i, goal);
      SkipsTo(l, es, start, i + 1, k, goal);
    }
  }

  lemma SkipsNext(l: RaftLog, es: seq<Entry>, start: nat, i: nat, goal: RaftLog)
    requires Gives(l, es, start, i, goal) && i < |es| && Has(l.entries, es, start, i)
    ensures Gives(l, es, start, i + 1, goal)
  {
    MergeSkips(l, es[i]);
    MergeStep(l, es, start, i, l);
  }

  lemma MergeIsSpliced(l: RaftLog, es: seq<Entry>, start: nat, k: nat)
    requires l.Wf() && Numbered(es, start) && start <= |l.entries| && FirstNew(l.entries, es, start, k)
    ensures start + k <= |l.entries| && Merge(l, es, start) == Spliced(l, es, start, k)
  {
    SkipsTo(l, es, start, 0, k, Merge(l, es, start));
    if k < |es| {
      MergeFromNew(l, es, start, k);
    }
  }

  lemma MergeFromNew(l: RaftLog, es: seq<Entry>, start: nat, k: nat)
    requires l.Wf() && Numbered(es, start) && k < |es| && start + k <= |l.entries| && !Has(l.entries, es, start, k)
    ensures MergeFrom(l, es, start, k) == Spliced(l, es, start, k)
  {
    MergeCuts(l, es[k]);
    var l1 := l.(stabled := Min(l.stabled, start + k), entries := l.entries[..start + k] + [es[k]]);
    MergeStep(l, es, start, k, l1);
    MergeAppends(l1, es, start, k + 1);
    RestOf(l.entries[..start + k], es, k);
  }

  lemma RestOf(a: seq<Entry>, es: seq<Entry>, k: nat)
    requires k < |es|
    ensures a + [es[k]] + es[k + 1..] == a + es[k..]
  {
  }

  /** The log has the entry before those of the append. */
  predicate Fits(log: seq<Entry>, m: Message)
    requires m.Append?
  {
    m.index <= |log| && TermAt(log, m.index) == m.logTerm
  }

  /** The commit mark after an append is accepted: raised to the leader's as far as the append goes. */
  function Raised(committed: nat, m: Message): nat
    requires m.Append?
  {
    var last := m.index + |m.entries|;
    if m.commit <= committed then committed else if m.commit < last then m.commit else last
  }

  lemma FitsIff(n: Node, m: Message)
    requires n.Wf() && m.Append?
    ensures Fits(n.log.entries, m) <==> AcceptsAppend(n, m)
  {
    n.log.Views(m.index);
  }

  /** A follower refuses an append if and only if its log does not have the entry before it, and says
      where its own ends if that is why; its log and mark stay. */
  lemma OnAppendRefused(n: Node, m: Message)
    requires n.Wf() && WfMessage(n, m) && m.Append? && m.term == n.term && n.role == Follower && !Fits(n.log.entries, m)
    ensures Step(n, m) == Out(n.(lead := m.from), {AppendResponse(m.from, n.id, n.term, true,
                                if m.index > |n.log.entries| then |n.log.entries| + 1 else 0)})
  {
    var f := n.(lead := m.from);
    FitsIff(f, m);
    f.log.Views(m.index);
    assert Step(n, m) == HandleAppend(f, m);
  }

  /** Otherwise it splices in what it does not have, raises its mark to the leader's as far as the
      append goes, and acknowledges the append's last index. */
  lemma OnAppendAccepted(n: Node, m: Message, k: nat)
    requires n.Wf() && WfMessage(n, m) && m.Append? && m.term == n.term && n.role == Follower && Fits(n.log.entries, m)
    requires FirstNew(n.log.entries, m.entries, m.index, k)
    ensures m.index + k <= |n.log.entries|
    ensures Step(n, m) == Out(n.(lead := m.from,
                                 log := Spliced(n.log, m.entries, m.index, k).(committed := Raised(n.log.committed, m))),
                              {AppendResponse(m.from, n.id, n.term, false, m.index + |m.entries|)})
  {
    var f := n.(lead := m.from);
    FitsIff(f, m);
    AcceptingStep(n, m);
    MergeIsSpliced(f.log, m.entries, m.index, k);
    AcceptIs(f, m, Spliced(f.log, m.entries, m.index, k));
  }

  lemma AcceptingStep(n: Node, m: Message)
    requires n.Wf() && WfMessage(n, m) && m.Append? && m.term == n.term && n.role == Follower && AcceptsAppend(n, m)
    ensures m.index <= |n.log.entries|
    ensures Step(n, m) == Accept(n.(lead := m.from), m, Merge(n.log, m.entries, m.index))
  {
    n.log.Views(m.index);
    assert Step(n, m) == HandleAppend(n.(lead := m.from), m);
  }

  lemma AcceptIs(f: Node, m: Message, l: RaftLog)
    requires m.Append? && l.committed == f.log.committed
    ensures Accept(f, m, l) == Out(f.(log := l.(committed := Raised(f.log.committed, m))),
                                   {AppendResponse(m.from, f.id, f.term, false, m.index + |m.entries|)})
  {
  }

  /** The mark alone, and which way the append went. */
  lemma AppendMark(n: Node, m: Message)
    requires n.Wf() && WfMessage(n, m) && m.Append? && m.term == n.term && n.role == Follower
    ensures Step(n, m).node.log.committed == if Fits(n.log.entries, m) then Raised(n.log.committed, m) else n.log.committed
  {
    if Fits(n.log.entries, m) {
      var k := FindFirstNew(n.log.entries, m.entries, m.index, 0);
      OnAppendAccepted(n, m, k);
    } else {
      OnAppendRefused(n, m);
    }
  }

  /** A candidate steps down and drops the append; a leader steps down and handles it. */
  lemma OnAppendElsewhere(n: Node, m: Message)
    requires n.Wf() && WfMessage(n, m) && m.Append? && m.term == n.term && n.role != Follower
    ensures var f := n.(role := Follower, lead := m.from, votes := map[]);
            f.Wf() && WfMessage(f, m) && Step(n, m) == if n.role == Candidate then Out(f, {}) else Step(f, m)
  {
  }

  lemma OnHeartbeat(n: Node, m: Message)
    requires n.Wf() && WfMessage(n, m) && m.Heartbeat? && m.term == n.term
    ensures Step(n, m) == Out(n.(role := Follower, lead := m.from, votes := if n.role == Follower then n.votes else map[]),
                              {HeartbeatResponse(m.from, n.id, n.term)})
  {
  }

  // ---- the leader --------------------------------------------------------------------------

  lemma OnBeat(n: Node)
    requires n.Wf() && n.role == Leader
    ensures Step(n, Beat).node == n
    ensures forall m :: m in Step(n, Beat).sent <==>
              exists q :: OtherPeer(n, q) && m == Heartbeat(q, n.id, n.term, n.log.committed)
  {
    forall m ensures m in Step(n, Beat).sent <==>
        exists q :: OtherPeer(n, q) && m == Heartbeat(q, n.id, n.term, n.log.committed)
    {
      if m in BroadcastHeartbeat(n) {
        var q :| q in n.prs && q != n.id && m == Heartbeat(q, n.id, n.term, n.log.committed);
        assert OtherPeer(n, q);
      }
    }
  }

  /** A peer that answers a heartbeat and is behind is sent what it lacks. */
  lemma OnHeartbeatResponse(n: Node, m: Message, a: Message)
    requires n.Wf() && WfMessage(n, m) && m.HeartbeatResponse? && m.term == n.term && n.role == Leader
    ensures Step(n, m).node == n
    ensures a in Step(n, m).sent <==> n.prs[m.from].next <= |n.log.entries| && Offer(n, m.from, a)
  {
    n.log.Views(0);
    SendOffers(n, m.from, a);
  }

  /** Proposals go to the end of the leader's log in their order, in its term; alone it commits them
      at once, else it sends them to all others. */
  lemma OnPropose(n: Node, payload: seq<Data>)
    requires n.Wf() && n.role == Leader
    ensures var o, last := Step(n, Propose(payload)), |n.log.entries| + |payload|;
            && o.node.(log := n.log, prs := n.prs) == n
            && o.node.prs == n.prs[n.id := Progress(last, last + 1)]
            && |o.node.log.entries| == last && n.log.entries <= o.node.log.entries
            && (forall i :: 0 <= i < |payload| ==>
                  o.node.log.entries[|n.log.entries| + i] == Entry(|n.log.entries| + i + 1, n.term, payload[i]))
            && o.node.log == n.log.(entries := o.node.log.entries,
                                    committed := if |n.prs| == 1 then last else n.log.committed)
            && (if |n.prs| == 1 then o.sent == {} else OffersAll(o.node, o.sent))
  {
    n.log.Views(0);
    var n1 := ProposeState(n, payload);
    n1.log.Views(0);
    BroadcastOffersAll(n1);
    assert Step(n, Propose(payload)) == HandlePropose(n, payload);
  }

  /** A reject takes `Next` back by one, with the wrap, and sends again from there. */
  lemma OnRejected(n: Node, m: Message, a: Message)
    requires n.Wf() && WfMessage(n, m) && m.AppendResponse? && m.reject && m.term == n.term && n.role == Leader
    ensures var next := n.prs[m.from].next;
            Step(n, m).node ==
            n.(prs := n.prs[m.from := Progress(n.prs[m.from].match_, if next == 0 then MAX_UINT64 else next - 1)])
    ensures a in Step(n, m).sent <==> Offer(Step(n, m).node, m.from, a)
  {
    assert Step(n, m) == HandleRejected(n, m);
    SendOffers(Step(n, m).node, m.from, a);
  }

  /** The peers whose Match is `k` or more. */
  function Reaching(prs: map<Id, Progress>, k: nat): set<Id> {
    set q | q in prs && prs[q].match_ >= k
  }

  /** More than half of the peers have a Match of `k` or more. */
  predicate Reached(prs: map<Id, Progress>, k: nat) {
    2 * |Reaching(prs, k)| > |prs|
  }

  predicate LargestReached(prs: map<Id, Progress>, k: nat) {
    Reached(prs, k) && !Reached(prs, k + 1)
  }

  lemma MedianReached(prs: map<Id, Progress>, k: nat)
    requires |prs| >= 1 && LargestReached(prs, k)
    ensures k == Median(prs)
  {
    assert Reaching(prs, k) == AtLeast(prs, k) && Reaching(prs, k + 1) == AtLeast(prs, k + 1);
    MedianIsQuorum(prs, k);
    MedianIsQuorum(prs, k + 1);
    MedianIsQuorum(prs, Median(prs));
    if k + 1 <= Median(prs) {
      assert AtLeast(prs, Median(prs)) <= AtLeast(prs, k + 1);
      Collections.SubsetSize(AtLeast(prs, Median(prs)), AtLeast(prs, k + 1));
    }
  }

  lemma MedianIsLargest(prs: map<Id, Progress>)
    requires |prs| >= 1
    ensures LargestReached(prs, Median(prs))
  {
    var k := Median(prs);
    assert Reaching(prs, k) == AtLeast(prs, k) && Reaching(prs, k + 1) == AtLeast(prs, k + 1);
    MedianIsQuorum(prs, k);
    MedianIsQuorum(prs, k + 1);
  }

  /** The commit rule (section 5.4.2): on an accepting reply the leader records it, and commits the
      largest index that more than half of the peers have reached, if that is further than its mark
      and the entry there is of its own term. It then tells all others; else nothing else happens. */
  lemma OnAccepted(n: Node, m: Message, k: nat)
    requires n.Wf() && WfMessage(n, m) && m.AppendResponse? && !m.reject && m.term == n.term && n.role == Leader
    requires LargestReached(n.prs[m.from := Progress(m.index, m.index + 1)], k)
    ensures var n1 := n.(prs := n.prs[m.from := Progress(m.index, m.index + 1)]);
            var termAt := if k <= |n.log.entries| then TermAt(n.log.entries, k) else 0;
            if k > n.log.committed && termAt == n.term then
              && Step(n, m).node == n1.(log := n.log.(committed := k))
              && OffersAll(Step(n, m).node, Step(n, m).sent)
            else Step(n, m) == Out(n1, {})
  {
    var n1 := Recorded(n, m);
    MedianReached(n1.prs, k);
    n.log.Views(k);
    BroadcastOffersAll(n1.(log := n.log.(committed := k)));
    assert Step(n, m) == HandleAcknowledged(n, m) == Advance(n1, k);
  }
}
