/** One Raft node as a value, and the transition each message causes (raft/raft.go). */
module RaftNode {
  import opened Collections
  import opened RaftTypes
  import opened RaftLogs
  import S = RaftStorage

  datatype Node = Node(
    id: Id,
    term: nat,
    vote: Id,
    log: RaftLog,
    prs: map<Id, Progress>,
    role: Role,
    votes: map<Id, bool>,
    lead: Id)
  {
    ghost predicate Wf() {
      id in prs && log.Wf()
    }
  }

  /** A node after a step, and the messages the step queued. Every step queues a message at most once. */
  datatype Out = Out(node: Node, sent: set<Message>)

  /** What the source demands of a message: it comes from a peer, and the entries of an append
      are numbered from its index on. */
  predicate WfMessage(n: Node, m: Message) {
    && (!m.Local() ==> m.from in n.prs)
    && (m.Append? ==> Numbered(m.entries, m.index))
  }

  /** What a storage keeps of a node besides its log. */
  datatype HardState = HardState(term: nat, vote: Id, commit: nat)

  /** newRaft over a storage: a follower with the term, vote, commit mark and log kept in it. */
  function Restored(id: Id, peers: set<Id>, storage: seq<Entry>, kept: HardState): (n: Node)
    requires S.Contiguous(storage)
    ensures id in peers && Uncompacted(storage) ==> n.Wf()
    ensures n.role == Follower && n.term == kept.term && n.vote == kept.vote && n.lead == NONE && n.votes == map[]
    ensures n.id == id && n.prs.Keys == peers && forall q :: q in peers ==> n.prs[q] == Progress(0, 1)
    ensures |n.log.entries| == S.Last(storage) - storage[0].index
    ensures n.log.committed == kept.commit && n.log.LastIndex() == n.log.stabled == S.Last(storage)
    ensures forall i: nat :: storage[0].index < i <= S.Last(storage) ==>
              S.At(storage, i) == S.Ok(n.log.entries[i - storage[0].index - 1])
  {
    var log := NewLog(storage).(committed := kept.commit);
    var prs := map q | q in peers :: Progress(0, 1);
    BecomeFollower(Node(id, kept.term, kept.vote, log, prs, Follower, map[], NONE), kept.term, NONE)
  }

  /** newRaft over a fresh storage. */
  function NewNode(id: Id, peers: set<Id>): (n: Node) {
    Restored(id, peers, [Entry(0, 0, [])], HardState(0, NONE, 0))
  }

  // ---- sending -----------------------------------------------------------------------------

  /** Whether sendAppend finds the term before `Next`: with `Next` 0 the predecessor wraps to the
      largest uint64, which is past every index. */
  predicate CanAppend(n: Node, to: Id)
    requires to in n.prs
  {
    0 < n.prs[to].next <= n.log.LastIndex() + 1
  }

  function AppendTo(n: Node, to: Id): Message
    requires n.Wf() && to in n.prs && CanAppend(n, to)
  {
    n.log.Views(0);
    var prev := n.prs[to].next - 1;
    Append(to, n.id, n.term, prev, n.log.TermOrZero(prev), n.log.entries[prev..], n.log.committed)
  }

  function SendAppend(n: Node, to: Id): set<Message>
    requires n.Wf() && to in n.prs
  {
    if CanAppend(n, to) then {AppendTo(n, to)} else {}
  }

  function BroadcastAppend(n: Node): set<Message>
    requires n.Wf()
  {
    set q | q in n.prs && q != n.id && CanAppend(n, q) :: AppendTo(n, q)
  }

  function BroadcastHeartbeat(n: Node): set<Message> {
    set q | q in n.prs && q != n.id :: Heartbeat(q, n.id, n.term, n.log.committed)
  }

  function BroadcastVoteRequest(n: Node): set<Message>
    requires n.Wf()
  {
    var last := n.log.LastIndex();
    set q | q in n.prs && q != n.id :: RequestVote(q, n.id, n.term, last, n.log.TermOrZero(last))
  }

  // ---- role changes ------------------------------------------------------------------------

  function BecomeFollower(n: Node, term: nat, lead: Id): Node {
    var n1 := if n.term < term then n.(term := term, vote := NONE) else n;
    n1.(role := Follower, lead := lead, votes := map[])
  }

  function BecomeCandidate(n: Node): Out
    requires n.Wf()
  {
    var n1 := n.(role := Candidate, term := n.term + 1, lead := NONE, vote := n.id, votes := map[n.id := true]);
    if |n.prs| == 1 then BecomeLeader(n1) else Out(n1, {})
  }

  /** The state of a new leader: progress reset, and a no-op entry of its term appended. */
  function LeaderState(n: Node): (r: Node)
    requires n.Wf()
    ensures r.Wf() && r.log.entries == n.log.entries + [Entry(|n.log.entries| + 1, n.term, [])]
  {
    n.log.Views(0);
    var next := n.log.LastIndex() + 1;
    var prs := map q | q in n.prs :: if q == n.id then Progress(next, next + 1) else Progress(0, next);
    n.(role := Leader, lead := n.id, vote := NONE, votes := map[], prs := prs,
       log := n.log.(entries := n.log.entries + [Entry(next, n.term, [])]))
  }

  function BecomeLeader(n: Node): Out
    requires n.Wf()
  {
    var n1 := LeaderState(n);
    if |n.prs| == 1 then Out(n1.(log := n1.log.(committed := n.log.LastIndex() + 1)), {})
    else Out(n1, BroadcastAppend(n1))
  }

  /** MsgHup at a follower or candidate. */
  function Campaign(n: Node): Out
    requires n.Wf()
  {
    var o := BecomeCandidate(n);
    if o.node.role != Candidate then o else o.(sent := BroadcastVoteRequest(o.node))
  }

  // ---- votes -------------------------------------------------------------------------------

  predicate RejectsVote(n: Node, m: Message)
    requires n.Wf() && m.RequestVote?
  {
    var last := n.log.LastIndex();
    var lastTerm := n.log.TermOrZero(last);
    || (n.vote != NONE && n.vote != m.from)
    || m.logTerm < lastTerm
    || (m.logTerm == lastTerm && m.index < last)
  }

  function HandleVoteRequest(n: Node, m: Message): Out
    requires n.Wf() && m.RequestVote?
  {
    var reject := RejectsVote(n, m);
    Out(if reject then n else n.(vote := m.from), {RequestVoteResponse(m.from, n.id, n.term, reject)})
  }

  function Granted(votes: map<Id, bool>): set<Id> {
    set q | q in votes && votes[q]
  }

  function Refused(votes: map<Id, bool>): set<Id> {
    set q | q in votes && !votes[q]
  }

  function HandleVoteResponse(n: Node, m: Message): Out
    requires n.Wf() && m.RequestVoteResponse?
  {
    var n1 := n.(votes := n.votes[m.from := !m.reject]);
    if |Granted(n1.votes)| > |n.prs| / 2 then BecomeLeader(n1)
    else if |Refused(n1.votes)| > |n.prs| / 2 then Out(BecomeFollower(n1, n.term, NONE), {})
    else Out(n1, {})
  }

  // ---- appends at a follower ---------------------------------------------------------------

  /** One iteration of the conflict loop of handleAppendEntries. */
  function MergeOne(l: RaftLog, e: Entry): (r: RaftLog)
    requires l.Wf() && 1 <= e.index <= |l.entries| + 1
    ensures r.Wf() && e.index <= |r.entries|
    ensures r.committed == l.committed && r.applied == l.applied
    ensures r.entries == if e.index <= |l.entries| && l.entries[e.index - 1].term == e.term then l.entries
                         else l.entries[..e.index - 1] + [e]
  {
    l.Views(e.index);
    if e.index <= l.LastIndex() then
      if l.TermOrZero(e.index) != e.term then
        CutOk(l, e);
        l.(stabled := if e.index <= l.stabled then e.index - 1 else l.stabled,
           entries := l.entries[..e.index - l.entries[0].index] + [e])
      else l
    else
      LongerOk(l, e);
      l.(entries := l.entries + [e])
  }

  lemma CutOk(l: RaftLog, e: Entry)
    requires l.Wf() && 1 <= e.index <= |l.entries|
    ensures l.entries[0].index == 1
    ensures l.(stabled := if e.index <= l.stabled then e.index - 1 else l.stabled,
               entries := l.entries[..e.index - 1] + [e]).Wf()
  {
    var k := e.index - 1;
    var stabled := if e.index <= l.stabled then k else l.stabled;
    assert l.entries[0].index == 1;
    StoredPrefix(l.storage, l.entries, l.stabled, stabled);
    PrefixKept(l.entries, k, e, stabled);
  }

  lemma StoredPrefix(storage: seq<Entry>, entries: seq<Entry>, n: nat, k: nat)
    requires k <= n < |storage| && n <= |entries| && storage[1..n + 1] == entries[..n]
    ensures storage[1..k + 1] == entries[..k]
  {
    assert storage[1..k + 1] == storage[1..n + 1][..k];
    assert entries[..k] == entries[..n][..k];
  }

  lemma PrefixKept(entries: seq<Entry>, k: nat, e: Entry, n: nat)
    requires n <= k <= |entries|
    ensures (entries[..k] + [e])[..n] == entries[..n]
  {
  }

  lemma LongerOk(l: RaftLog, e: Entry)
    requires l.Wf() && e.index == |l.entries| + 1
    ensures l.entries[..e.index - 1] == l.entries && l.(entries := l.entries + [e]).Wf()
  {
    PrefixKept(l.entries, |l.entries|, e, l.stabled);
    assert l.entries[..|l.entries|] == l.entries;
  }

  function Merge(l: RaftLog, es: seq<Entry>, start: nat): (r: RaftLog)
    requires l.Wf() && Numbered(es, start) && start <= |l.entries|
    ensures r.Wf() && r.committed == l.committed && r.applied == l.applied
  {
    MergeFrom(l, es, start, 0)
  }

  /** The conflict loop from entry `i` of `es` on. */
  function MergeFrom(l: RaftLog, es: seq<Entry>, start: nat, i: nat): (r: RaftLog)
    requires l.Wf() && Numbered(es, start) && i <= |es| && start + i <= |l.entries|
    ensures r.Wf() && r.committed == l.committed && r.applied == l.applied
    decreases |es| - i
  {
    if i == |es| then l else MergeFrom(MergeOne(l, es[i]), es, start, i + 1)
  }

  predicate AcceptsAppend(n: Node, m: Message)
    requires n.Wf() && m.Append?
  {
    m.index <= n.log.LastIndex() && n.log.TermOrZero(m.index) == m.logTerm
  }

  /** Log merged: raise the commit mark and acknowledge. */
  function Accept(n: Node, m: Message, l: RaftLog): Out
    requires m.Append?
  {
    var lastNew := m.index + |m.entries|;
    var committed := if m.commit > l.committed then Min(m.commit, lastNew) else l.committed;
    Out(n.(log := l.(committed := committed)), {AppendResponse(m.from, n.id, n.term, false, lastNew)})
  }

  function HandleAppend(n: Node, m: Message): Out
    requires n.Wf() && m.Append? && WfMessage(n, m)
  {
    n.log.Views(0);
    if m.index > n.log.LastIndex() then
      Out(n, {AppendResponse(m.from, n.id, n.term, true, n.log.LastIndex() + 1)})
    else if n.log.TermOrZero(m.index) != m.logTerm then
      Out(n, {AppendResponse(m.from, n.id, n.term, true, 0)})
    else Accept(n, m, Merge(n.log, m.entries, m.index))
  }

  function HandleHeartbeat(n: Node, m: Message): Out
    requires m.Heartbeat?
  {
    Out(n.(lead := m.from), {HeartbeatResponse(m.from, n.id, n.term)})
  }

  // ---- the leader --------------------------------------------------------------------------

  /** The entry at position `k` of the ascending sort of the Match values is `v`, said without
      sorting: at most `k` values are below it, and more than `k` are at or below it. */
  predicate IsOrderStatistic(prs: map<Id, Progress>, k: nat, v: nat) {
    && |Below(prs, v)| <= k < |AtMost(prs, v)|
    && exists q :: q in prs && prs[q].match_ == v
  }

  function Below(prs: map<Id, Progress>, v: nat): set<Id> {
    set q | q in prs && prs[q].match_ < v
  }

  function AtMost(prs: map<Id, Progress>, v: nat): set<Id> {
    set q | q in prs && prs[q].match_ <= v
  }

  function AtLeast(prs: map<Id, Progress>, v: nat): set<Id> {
    set q | q in prs && prs[q].match_ >= v
  }

  function WithProgress(n: Node, q: Id, pr: Progress): Node {
    n.(prs := n.prs[q := pr])
  }

  function Proposed(payload: seq<Data>, last: nat, term: nat): (r: seq<Entry>)
    ensures |r| == |payload| && Numbered(r, last)
    ensures forall i :: 0 <= i < |r| ==> r[i].term == term && r[i].data == payload[i]
  {
    seq(|payload|, i requires 0 <= i < |payload| => Entry(last + i + 1, term, payload[i]))
  }

  function ProposeState(n: Node, payload: seq<Data>): (r: Node)
    requires n.Wf()
    ensures r.Wf()
  {
    n.log.Views(0);
    var log := n.log.(entries := n.log.entries + Proposed(payload, n.log.LastIndex(), n.term));
    log.Views(0);
    WithProgress(n, n.id, Progress(log.LastIndex(), log.LastIndex() + 1)).(log := log)
  }

  function HandlePropose(n: Node, payload: seq<Data>): Out
    requires n.Wf()
  {
    var n1 := ProposeState(n, payload);
    if |n.prs| == 1 then Out(n1.(log := n1.log.(committed := n1.log.LastIndex())), {})
    else Out(n1, BroadcastAppend(n1))
  }

  /** Commit up to `newCommit` if that is further, and an entry of the leader's own term. */
  function Advance(n: Node, newCommit: nat): Out
    requires n.Wf()
  {
    if newCommit > n.log.committed && n.log.TermOrZero(newCommit) == n.term then
      var n1 := n.(log := n.log.(committed := newCommit));
      Out(n1, BroadcastAppend(n1))
    else Out(n, {})
  }

  function HandleRejected(n: Node, m: Message): Out
    requires n.Wf() && m.AppendResponse? && m.from in n.prs
  {
    var pr := n.prs[m.from];
    var next := if pr.next == 0 then MAX_UINT64 else pr.next - 1;
    var n1 := WithProgress(n, m.from, pr.(next := next));
    Out(n1, SendAppend(n1, m.from))
  }

  /** The median is determined by the Match values. */
  ghost function Median(prs: map<Id, Progress>): (v: nat)
    requires |prs| >= 1
    ensures IsOrderStatistic(prs, (|prs| - 1) / 2, v)
  {
    OrderStatisticExists(prs, (|prs| - 1) / 2);
    var v :| IsOrderStatistic(prs, (|prs| - 1) / 2, v);
    v
  }

  /** The sender of an accepted append is recorded as having everything up to its index. */
  function Recorded(n: Node, m: Message): (r: Node)
    requires n.Wf() && m.AppendResponse? && m.from in n.prs
    ensures r.Wf() && r.prs.Keys == n.prs.Keys && |r.prs| >= 1
  {
    var r := WithProgress(n, m.from, Progress(m.index, m.index + 1));
    assert m.from in r.prs.Keys;
    assert |r.prs| == |r.prs.Keys|;
    r
  }

  ghost function HandleAcknowledged(n: Node, m: Message): Out
    requires n.Wf() && m.AppendResponse? && m.from in n.prs
  {
    Advance(Recorded(n, m), Median(Recorded(n, m).prs))
  }

  // ---- dispatch ----------------------------------------------------------------------------

  function StepFollower(n: Node, m: Message): Out
    requires n.Wf() && WfMessage(n, m)
  {
    match m
    case Hup => Campaign(n)
    case RequestVote(_, _, _, _, _) => HandleVoteRequest(n, m)
    case Heartbeat(_, _, _, _) => HandleHeartbeat(n, m)
    case Append(_, from, _, _, _, _, _) => HandleAppend(n.(lead := from), m)
    case _ => Out(n, {})
  }

  function StepCandidate(n: Node, m: Message): Out
    requires n.Wf() && WfMessage(n, m)
  {
    match m
    case Hup => Campaign(n)
    case RequestVote(_, from, _, _, _) =>
      Out(n, if from != n.id then {RequestVoteResponse(from, n.id, n.term, true)} else {})
    case RequestVoteResponse(_, _, _, _) => HandleVoteResponse(n, m)
    case Heartbeat(_, from, term, _) => HandleHeartbeat(BecomeFollower(n, term, from), m)
    case Append(_, from, term, _, _, _, _) => Out(BecomeFollower(n, term, from), {})
    case _ => Out(n, {})
  }

  ghost function StepLeader(n: Node, m: Message): Out
    requires n.Wf() && WfMessage(n, m)
  {
    match m
    case Beat => Out(n, BroadcastHeartbeat(n))
    case RequestVote(_, from, _, _, _) => Out(n, {RequestVoteResponse(from, n.id, n.term, true)})
    case Heartbeat(_, from, term, _) => HandleHeartbeat(BecomeFollower(n, term, from), m)
    case HeartbeatResponse(_, from, _) =>
      Out(n, if n.prs[from].next <= n.log.LastIndex() then SendAppend(n, from) else {})
    case Propose(payload) => HandlePropose(n, payload)
    case AppendResponse(_, _, _, reject, _) => if reject then HandleRejected(n, m) else HandleAcknowledged(n, m)
    case Append(_, from, term, _, _, _, _) => HandleAppend(BecomeFollower(n, term, from), m)
    case _ => Out(n, {})
  }

  ghost function StepRole(n: Node, m: Message): Out
    requires n.Wf() && WfMessage(n, m)
  {
    match n.role
    case Follower => StepFollower(n, m)
    case Candidate => StepCandidate(n, m)
    case Leader => StepLeader(n, m)
  }

  ghost function Step(n: Node, m: Message): Out
    requires n.Wf() && WfMessage(n, m)
  {
    if !m.Local() && m.term > n.term then StepRole(BecomeFollower(n, m.term, NONE), m)
    else if !m.Local() && m.term < n.term then Out(n, {})
    else StepRole(n, m)
  }

  // ---- order statistics --------------------------------------------------------------------

  lemma {:induction false} OrderStatisticExists(prs: map<Id, Progress>, k: nat)
    requires k < |prs|
    ensures exists v :: IsOrderStatistic(prs, k, v)
  {
    assert Below(prs, 0) == {};
    var v := FindOrderStatistic(prs, k, 0, {});
    assert IsOrderStatistic(prs, k, v);
  }

  /** Walk up the values: while at most `k` of them are at or below `v`, move to the next one. */
  lemma {:induction false} FindOrderStatistic(prs: map<Id, Progress>, k: nat, v: nat, done: set<Id>) returns (r: nat)
    requires k < |prs|
    requires |Below(prs, v)| <= k && done == Below(prs, v)
    ensures IsOrderStatistic(prs, k, r)
    decreases prs.Keys - done
  {
    assert |prs.Keys| == |prs|;
    assert prs.Keys * done == done;
    assert |prs.Keys - done| == |prs.Keys| - |done|;
    var q :| q in prs.Keys - done;
    r := prs[q].match_;
    var rest := prs.Keys - done - {q};
    while rest != {}
      invariant rest <= prs.Keys - done
      invariant exists p :: p in prs && p !in done && prs[p].match_ == r
      invariant r >= v
      invariant forall p :: p in prs && p !in done && p !in rest ==> r <= prs[p].match_
      decreases rest
    {
      var p :| p in rest;
      rest := rest - {p};
      if prs[p].match_ < r {
        r := prs[p].match_;
      }
    }
    assert Below(prs, r) == done;
    if |AtMost(prs, r)| <= k {
      assert Below(prs, r + 1) == AtMost(prs, r);
      assert done < AtMost(prs, r) by {
        var p :| p in prs && p !in done && prs[p].match_ == r;
        assert p in AtMost(prs, r);
      }
      r := FindOrderStatistic(prs, k, r + 1, AtMost(prs, r));
    }
  }

  lemma OrderStatisticUnique(prs: map<Id, Progress>, k: nat, v: nat, w: nat)
    requires IsOrderStatistic(prs, k, v) && IsOrderStatistic(prs, k, w)
    ensures v == w
  {
    if v < w {
      assert AtMost(prs, v) <= Below(prs, w);
      SubsetSize(AtMost(prs, v), Below(prs, w));
    } else if w < v {
      assert AtMost(prs, w) <= Below(prs, v);
      SubsetSize(AtMost(prs, w), Below(prs, v));
    }
  }

  /** The median Match is reached by strictly more than half of the peers, and no larger value is. */
  lemma MedianIsQuorum(prs: map<Id, Progress>, v: nat)
    requires |prs| >= 1
    ensures v == Median(prs) ==> |AtLeast(prs, v)| > |prs| / 2
    ensures v > Median(prs) ==> |AtLeast(prs, v)| <= |prs| / 2
  {
    var m := Median(prs);
    assert AtLeast(prs, m) == prs.Keys - Below(prs, m);
    assert Below(prs, m) <= prs.Keys;
    if v > m {
      assert AtLeast(prs, v) <= prs.Keys - AtMost(prs, m);
      assert AtMost(prs, m) <= prs.Keys;
      SubsetSize(AtLeast(prs, v), prs.Keys - AtMost(prs, m));
    }
  }
}
