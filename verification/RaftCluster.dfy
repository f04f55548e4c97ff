/** A cluster of Raft nodes over a network that may lose, duplicate and reorder messages:
    messages once sent stay available for delivery any number of times, in any order, or never. */
module RaftCluster {
  import opened RaftTypes
  import opened RaftNode

  datatype Cluster = Cluster(nodes: map<Id, Node>, net: set<Message>)

  /** What may happen next. Timer ticks surface as `Timeout` and `Heartbeats` at any moment. */
  datatype Action =
    | Deliver(m: Message)
    | Timeout(p: Id)
    | Heartbeats(p: Id)
    | ClientPropose(p: Id, payload: seq<Data>)
    | Drain(p: Id)

  ghost predicate Init(c: Cluster, peers: set<Id>) {
    && peers != {} && NONE !in peers
    && c.nodes == (map p | p in peers :: NewNode(p, peers))
    && c.net == {}
  }

  function Actor(a: Action): Id {
    match a
    case Deliver(m) => if m.Local() then NONE else m.to
    case Timeout(p) => p
    case Heartbeats(p) => p
    case ClientPropose(p, _) => p
    case Drain(p) => p
  }

  /** The message the acting node steps on. */
  function Input(a: Action): Message
    requires !a.Drain?
  {
    match a
    case Deliver(m) => m
    case Timeout(_) => Hup
    case Heartbeats(_) => Beat
    case ClientPropose(_, payload) => Propose(payload)
  }

  predicate Enabled(c: Cluster, a: Action) {
    && Actor(a) in c.nodes
    && (a.Deliver? ==> a.m in c.net && !a.m.Local())
  }

  /** The source's slice accesses and map lookups succeed in this step. */
  ghost predicate NoPanic(c: Cluster, a: Action)
    requires Enabled(c, a)
  {
    var n := c.nodes[Actor(a)];
    n.Wf() && (if a.Drain? then n.log.Ok() else WfMessage(n, Input(a)))
  }

  ghost function Outcome(c: Cluster, a: Action): Out
    requires Enabled(c, a) && NoPanic(c, a)
  {
    var n := c.nodes[Actor(a)];
    if a.Drain? then Out(n.(log := n.log.Drain()), {}) else Step(n, Input(a))
  }

  ghost function Apply(c: Cluster, a: Action): Cluster
    requires Enabled(c, a) && NoPanic(c, a)
  {
    var o := Outcome(c, a);
    Cluster(c.nodes[Actor(a) := o.node], c.net + o.sent)
  }

  ghost predicate Next(c: Cluster, a: Action, c': Cluster) {
    Enabled(c, a) && NoPanic(c, a) && c' == Apply(c, a)
  }

  /** A run: clusters run[0..n], with acts[i] leading from run[i] to run[i+1]. */
  ghost predicate IsRun(run: seq<Cluster>, acts: seq<Action>, peers: set<Id>) {
    && |run| == |acts| + 1
    && Init(run[0], peers)
    && forall i {:trigger Next(run[i], acts[i], run[i + 1])} :: 0 <= i < |acts| ==> Next(run[i], acts[i], run[i + 1])
  }
}
