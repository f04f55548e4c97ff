# TinyKV in Dafny

This project models the parts of TinyKV that carry its correctness and proves what they promise:
the Raft consensus core, the memcomparable key encoding and the region split that relies on it, the
row format of the coprocessor, and four smaller pieces of state: the top-N heap, the latches, the
overlap query over region ranges, and the snapshot stream.

`dafny verify dfyconfig.toml` checks everything.

## Raft

The model has two layers.

* `RaftNode` gives each step of a node as a function on a record, branch by branch as in
  `raft/raft.go`; `RaftLogs` and `RaftStorage` do the same for `raft/log.go` and
  `raft/storage.go`. `RaftImpl` is the node as the source runs it, a class whose methods update
  fields, loop over peers and entries and append to `msgs`; each method is proved to give the state
  and queue the messages of the function. Messages are compared as a multiset, because Go iterates
  over a map in no fixed order.
* `RaftCluster` puts any number of nodes on a network where a message once sent may be delivered
  any number of times, in any order, or never; `Hup` and `Beat` may happen at any moment, proposals
  are arbitrary, and the application may persist and apply entries at any time. A run is any
  sequence of such steps from fresh nodes.

The proof keeps a history beside a run (`RaftHistory`): for each term its leader, the quorum that
elected it, the log it started from and the log it has; every vote ever cast, every log ever
campaigned with, every acknowledgement ever sent, and every prefix a quorum acknowledged. The vote
history is needed because `becomeLeader` clears `Vote`. What a node or a message may look like
(`RaftInvariant.NodeOk`, `MsgOk`) is said in terms of the history alone, so a step has to be looked
at only at the node that takes it. `RaftSafety` lifts this to runs.

Safety alone would also hold of nodes that never vote or commit. `RaftEffects` therefore says what a
node does on each message, in each role, of its fields and of positions in its log and without the
functions that compute it: when a vote is granted, what an append leaves in the log and which mark,
what a leader commits and whom it tells. `RaftProgress` draws the consequence for runs: in every
reachable state a leader has committed whatever more than half of the Match values have reached, and
whoever accepts an append has committed what it says is committed.

The properties of Figure 3 of the Raft paper (Ongaro and Ousterhout, "In Search of an
Understandable Consensus Algorithm", section 5) are stated over whole runs, between any two nodes
at any two moments. Two things the code does not guard are pinned down exactly:

* the assignment `committed = min(m.Commit, lastNewIndex)` lowers the mark for some messages;
  `CommitDropsIff` says for which, and `AppendsCarryCommit` that no such message is ever in flight;
* `Next--` goes to 0 and then wraps, and `sendAppend` then finds no term and sends nothing. This
  does happen: `StuckReachable` gives a run of any two nodes that leads to it, and `RejectsStick`
  says that from every state with a reject in flight delivering it `Next` times does. `StuckIff`
  and `StuckBecause` say that a leader loses the index to send from in no other way,
  `StuckIsSilent` that it then sends the peer nothing, and `StuckUntilAccepted` that only an
  acceptance ends it, whether `Next` is at 0 or has wrapped.

## Row format

`RowLayout` defines the bytes of a row and how a row is read, `RowRoundTrip` proves the round trip,
`RowEncoder` and `RowDecoder` are the two classes with their in-place sorts, the promotion to the
large format partway through the loop and the binary searches.

The round trip is false of the code in three ways, which are stated as such:

* a row with byte-sized ids and exactly 65535 bytes of data becomes large without its offsets
  (`encoder.go:155-160`), and none of these rows comes back (`ForgottenFails`);
* the offsets of a row of 2^32 bytes or more wrap (`encoder.go:149`), and none of these comes back
  either (`HugeFails`). `SurvivesIff` proves that from a new encoder exactly the rows of these two
  kinds do not come back;
* an encoder used again keeps the 32-bit offsets of the last large row and copies them over the
  offsets of a small one (`encoder.go:162-165`), or writes them for a row of exactly 65535 bytes.
  `RowReuse.ReuseLoses` loses a row with two calls on one encoder, and `ReuseSurvivesIff` says
  exactly which offsets left over a row survives. `EncodeAll` ties what is left over to the rows
  encoded before, for any number of rows. A used encoder can also save a row that a new one loses
  (`ReuseCanSave`).

## Splitting a region

The bound sent for a split never falls among the versions of a user key (`BoundNeverSeparates`, for
encoded and raw keys alike), but it can fall on the region's start, so that nothing is split off
(`NothingSplitOff`): `BoundAfterStartIff` and `SplitsOffIff` say exactly when it does not.

## Overlap query

`getOverlapRegions` is right for every query range that holds a key. For a range that holds none it
can return a region; `RightIff` gives the exact condition and `EmptyQueryHits` a case.

## Model

| member | source | states |
|---|---|---|
| `RaftSafety.StateMachineSafety` | tinykv/raft/raft.go:547-656 | any two nodes, at any two moments of any run, agree on every entry that both have committed |
| `RaftSafety.LaterLeadersHold` | tinykv/raft/raft.go:386-412 | whatever a node has committed by the time it is in a term is in the log of every leader of a later term, in either order of time |
| `RaftHistory.LeaderCompleteness` | tinykv/raft/raft.go:553-580 | a prefix acknowledged by a quorum of its term is a prefix of the log every later leader starts from |
| `RaftSafety.ElectionSafety` | tinykv/raft/raft.go:252-332 | over a whole run at most one node is ever leader in a term, although a new leader forgets its vote |
| `RaftHistory.OneLeader` | tinykv/raft/raft.go:464-481 | a quorum of votes in a term that has a leader can only be for that leader |
| `RaftSafety.LogMatching` | tinykv/raft/raft.go:591-639 | logs that hold an entry of the same index and term are equal up to it, also across different moments of a run |
| `RaftSafety.LogShape` | tinykv/raft/raft.go:619-645 | in every reachable state entries are numbered from 1 with ascending terms no higher than the node's, applied <= committed <= last, stabled <= last, and the stable part is what storage holds |
| `RaftSafety.LeaderAppendOnly` | tinykv/raft/raft.go:314-318 | while a node leads a term its log only grows |
| `RaftSafety.CommittedForever` | tinykv/raft/raft.go:619-645 | a node's commit mark never goes back and what is below it is never cut or changed |
| `RaftSafety.AppendsCarryCommit` | tinykv/raft/raft.go:208-229 | every append in flight has its commit mark within its entries and ends in an entry of its sender's term |
| `RaftSafety.MatchSound` | tinykv/raft/raft.go:553-555 | a leader's Match for a peer means the peer held, at some moment of this term, the leader's log through that index |
| `RaftSafety.RunsDoNotPanic` | tinykv/raft/raft.go:336-360 | no step enabled in a reachable state indexes a log out of range or looks up an unknown peer |
| `RaftSafety.NextInv` | tinykv/raft/raft.go:336-360 | one step of any node keeps the invariant of the whole cluster and only adds to the history |
| `RaftSafety.Explain` | tinykv/raft/raft.go:336-360 | every run has a growing sequence of histories that accounts for each of its states |
| `RaftProgress.QuorumIsCommitted` | tinykv/raft/raft.go:553-580 | in every state of every run a leader has committed every index that the Match of more than half of the peers reaches |
| `RaftProgress.FollowerLearns` | tinykv/raft/raft.go:641-645 | in every run a node that accepts an append has its mark at the larger of its own and the append's |
| `RaftEffects.OnAccepted` | tinykv/raft/raft.go:552-580 | on an accepting reply the leader commits the largest index more than half have reached, if it is past its mark and of its own term, and sends every other peer everything from its Next on with the new mark; otherwise only the reply is recorded |
| `RaftEffects.OnVoteRequest` | tinykv/raft/raft.go:386-412 | a follower grants if and only if it has not voted for another and the candidate's log is at least as up to date, and then the vote is the candidate's |
| `RaftEffects.OnVoteRequestElsewhere` | tinykv/raft/raft.go:450-462 | candidates and leaders refuse |
| `RaftEffects.OnVote` | tinykv/raft/raft.go:464-481 | a candidate leads if and only if more than half have granted, and else gives up if more than half have refused |
| `RaftEffects.OnTimeout` | tinykv/raft/raft.go:270-288 | a new term, a vote for itself, and a request with last index and term to every other peer; alone it leads at once |
| `RaftEffects.LeadsAfter` | tinykv/raft/raft.go:291-332 | a new leader's fields: progress reset, a no-op at the end of its log, and an append from there to every other peer |
| `RaftEffects.OnAppendRefused` | tinykv/raft/raft.go:594-617 | an append whose preceding entry the log does not have changes only the leader known, and the reply says where the log ends if it is too short |
| `RaftEffects.OnAppendAccepted` | tinykv/raft/raft.go:619-655 | any other, for any log and entries: the log is cut at the first entry it does not have and continued by the rest, the stable mark falls to the cut, the commit mark rises to the leader's as far as the append goes, and the last index is acknowledged |
| `RaftEffects.OnAppendElsewhere` | tinykv/raft/raft.go:487-489 | a candidate steps down and drops the append, a leader steps down and handles it |
| `RaftEffects.OnHeartbeat` | tinykv/raft/raft.go:659-669 | whatever the role, the node follows the sender and answers |
| `RaftEffects.OnBeat` | tinykv/raft/raft.go:495-500 | a heartbeat to every other peer and nothing else |
| `RaftEffects.OnHeartbeatResponse` | tinykv/raft/raft.go:517-522 | a peer is sent an append if and only if its Next is within the log |
| `RaftEffects.OnPropose` | tinykv/raft/raft.go:524-545 | the proposals at the end of the log in order and in the leader's term, committed at once by a single node and else sent to every other peer |
| `RaftEffects.OnRejected` | tinykv/raft/raft.go:548-551 | Next one back, with the wrap, and an append from there |
| `RaftEffects.OnNewerTerm` | tinykv/raft/raft.go:339-350 | a message of a newer term is handled as by a follower of that term that has not voted |
| `RaftEffects.OnOlderTerm` | tinykv/raft/raft.go:347-349 | one of an older term does nothing |
| `RaftEffects.OnUseless` | tinykv/raft/raft.go:351-359 | messages without a branch in the role do nothing |
| `RaftInvariant.StepOk` | tinykv/raft/raft.go:336-360 | a node that steps on a message accounted for stays accounted for, and so are the messages it sends |
| `RaftInvariant.StepFollowerOk` | tinykv/raft/raft.go:362-424 | the same for each message a follower handles |
| `RaftInvariant.StepCandidateOk` | tinykv/raft/raft.go:426-492 | the same for a candidate, including the append it drops while stepping down |
| `RaftInvariant.StepLeaderOk` | tinykv/raft/raft.go:493-588 | the same for a leader, which never meets an append or heartbeat of its own term: it is the only sender of those |
| `RaftInvariant.VoteRequestOk` | tinykv/raft/raft.go:386-412 | a granted vote goes to a candidate whose log covers everything the voter acknowledged in earlier terms |
| `RaftInvariant.BecomeLeaderOk` | tinykv/raft/raft.go:291-332 | a candidate with a quorum of votes is the first leader of its term and its new log extends the one it campaigned with |
| `RaftInvariant.AppendHandledOk` | tinykv/raft/raft.go:591-656 | an append is rejected, or leaves a log that follows the leader's through its last entry, keeps what is committed and everything acknowledged, and is acknowledged truthfully |
| `RaftInvariant.MergeResult` | tinykv/raft/raft.go:619-639 | the conflict loop over a suffix of a log that matches: the old log if it holds the suffix already, otherwise that log cut to the suffix's end |
| `RaftInvariant.CommittedKept` | tinykv/raft/raft.go:619-639 | merging keeps every entry that is committed and so shared with the leader's log: the cut at a conflict lands above the commit mark |
| `RaftInvariant.AdvanceOk` | tinykv/raft/raft.go:556-580 | committing the median of the current term commits what a quorum has acknowledged |
| `RaftInvariant.MedianAcked` | tinykv/raft/raft.go:556-571 | the peers at or above the median Match are a quorum that acknowledged that much in this term |
| `RaftInvariant.CommitDropsIff` | tinykv/raft/raft.go:641-645 | an accepted append lowers the commit mark if and only if it carries a higher mark but ends below the current one |
| `RaftInvariant.CommitCanDrop` | tinykv/raft/raft.go:641-645 | a concrete node and message for which the mark goes back |
| `RaftNode.MedianIsQuorum` | tinykv/raft/raft.go:559-564 | for every number of peers, strictly more than half have a Match at or above position (n-1)/2 of the ascending sort |
| `RaftNode.OrderStatisticUnique` | tinykv/raft/raft.go:559-564 | the value at a position of the sort is determined by how many values are below it and how many at or below |
| `RaftStatistics.SortMatches` | tinykv/raft/raft.go:559-563 | sorting the collected Match values gives an ascending rearrangement of them |
| `RaftStatistics.SortedOrderStatistic` | tinykv/raft/raft.go:559-564 | the value at a position of any ascending rearrangement of the Match values is the one counting singles out |
| `RaftRepair.ExchangeRepairs` | tinykv/raft/raft.go:547-555 | a leader and a follower with matching logs agree after at most Next-1 rejects, the follower then holding the leader's whole log with its mark at least the leader's |
| `RaftRepair.AcceptedRound` | tinykv/raft/raft.go:591-656 | an accepted round leaves the follower with the leader's log and mark and says so |
| `RaftRepair.RejectedRound` | tinykv/raft/raft.go:594-617 | a rejected round leaves the follower's log alone, and only happens with an index left to step back from |
| `RaftRepair.StepBack` | tinykv/raft/raft.go:548-551 | on a reject the leader resends from one index earlier, and the two are still such a pair |
| `RaftRepair.RunPaired` | tinykv/raft/raft.go:197-231 | in every reachable state a leader and a follower of its term are such a pair if and only if the leader finds the term before Next |
| `RaftStuck.StuckIff` | tinykv/raft/raft.go:548-551 | in every run a leader loses the index to send a peer from by a step if and only if the step delivers a reject of the peer in its term with Next at 1 |
| `RaftStuck.StuckBecause` | tinykv/raft/raft.go:548-551 | a leader without an index to send a peer from was delivered such a reject earlier in the same term |
| `RaftStuck.StuckIsSilent` | tinykv/raft/raft.go:197-206 | with Next at 0, or wrapped past the log, no step but a reply of the peer changes the record of it or sends it an append |
| `RaftStuck.StuckUntilAccepted` | tinykv/raft/raft.go:547-555 | with Next at 0, or wrapped well past the log, a step gives back an index to send from if and only if it delivers an acceptance of the peer; a reject is not answered |
| `RaftStuck.RejectsStick` | tinykv/raft/raft.go:548-551 | from every state of a run with a reject of the term in flight, delivering it Next times leads to Next at 0 |
| `RaftStuck.StuckReachable` | tinykv/raft/raft.go:548-551 | any two nodes have a run to a leader with Next at 0 for its follower |
| `RaftLogs.RaftLog.Views` | tinykv/raft/log.go:96-155 | last index, term at an index, unstable and next entries are exactly those of the log, with no slice out of range |
| `RaftLogs.RaftLog.Drain` | tinykv/raft/raft_test.go:36-44 | persisting and applying leaves nothing unstable and nothing to apply, and changes no entry |
| `RaftLogs.NewLog` | tinykv/raft/log.go:58-71 | the log over a storage, compacted or not, holds every entry of it, all of them stable, with the commit and apply marks at the compacted index |
| `RaftNode.Restored` | tinykv/raft/raft.go:170-193 | a node made over a storage is a follower with the term, vote, commit mark and log kept there |
| `RaftStorage.AppendView` | tinykv/raft/storage.go:241-273 | after an append, every index answers with the old entry below the batch and with the batch from there on; entries at or below the compacted index are ignored |
| `RaftStorage.CompactKeeps` | tinykv/raft/storage.go:218-236 | compaction changes no entry above its index and no term at or above it |
| `RaftStorage.MemoryStorage.constructor` | tinykv/raft/storage.go:87-94 | a new storage holds the dummy entry |
| `RaftStorage.MemoryStorage.Entries` | tinykv/raft/storage.go:110-127 | a range above the compacted index comes back entry by entry, one that starts at or below it is an error |
| `RaftStorage.MemoryStorage.Term` | tinykv/raft/storage.go:130-141 | the term at an index, compacted or unavailable |
| `RaftStorage.MemoryStorage.Append` | tinykv/raft/storage.go:241-273 | stays contiguous and holds what `AppendView` describes |
| `RaftStorage.MemoryStorage.Compact` | tinykv/raft/storage.go:218-236 | stays contiguous and holds what `CompactKeeps` describes, or reports compaction already past the index |
| `RaftStorage.MemoryStorage.ApplySnapshot` | tinykv/raft/storage.go:174-188 | an older snapshot is refused; a newer one leaves no entry and its own index and term |
| `RaftImpl.Raft.constructor` | tinykv/raft/raft.go:170-193 | the new node is the restored one, from any term, vote, commit mark and log kept; over a fresh storage the one the cluster model starts from |
| `RaftImpl.Raft.SendAppend` | tinykv/raft/raft.go:197-231 | copies the whole suffix from Next on into one message, or sends nothing when the predecessor has no term |
| `RaftImpl.Raft.EntriesFrom` | tinykv/raft/raft.go:209-218 | the entries copied are exactly the log from an index on |
| `RaftImpl.Raft.BroadcastAppend` | tinykv/raft/raft.go:326-330 | one append to every other peer, in whatever order the map is walked |
| `RaftImpl.Raft.BroadcastHeartbeat` | tinykv/raft/raft.go:495-500 | one heartbeat to every other peer |
| `RaftImpl.Raft.BecomeFollower` | tinykv/raft/raft.go:252-267 | new state as the step function says: the vote is cleared only with a higher term |
| `RaftImpl.Raft.BecomeCandidate` | tinykv/raft/raft.go:270-288 | new state and messages as the step function says, a single node becoming leader at once |
| `RaftImpl.Raft.BecomeLeader` | tinykv/raft/raft.go:291-332 | new state and messages as the step function says |
| `RaftImpl.Raft.Campaign` | tinykv/raft/raft.go:364-384 | new state and vote requests as the step function says |
| `RaftImpl.Raft.HandleVoteRequest` | tinykv/raft/raft.go:386-412 | new state and reply as the step function says |
| `RaftImpl.Raft.HandleVoteResponse` | tinykv/raft/raft.go:464-481 | new state and messages as the step function says |
| `RaftImpl.Raft.CountVotes` | tinykv/raft/raft.go:466-475 | the counting loop finds the number of peers that granted and that refused |
| `RaftImpl.Raft.HandlePropose` | tinykv/raft/raft.go:524-545 | new state and messages as the step function says |
| `RaftImpl.Raft.HandleRejected` | tinykv/raft/raft.go:548-551 | new state and resend as the step function says, with the wrap of Next |
| `RaftImpl.Raft.MedianMatch` | tinykv/raft/raft.go:559-564 | the value picked from the sorted list is the median the proof reasons about |
| `RaftImpl.Raft.HandleAcknowledged` | tinykv/raft/raft.go:552-580 | new state and messages as the step function says |
| `RaftImpl.Raft.MergeEntries` | tinykv/raft/raft.go:619-639 | the in-place conflict loop gives the merged log |
| `RaftImpl.Raft.HandleAppendEntries` | tinykv/raft/raft.go:591-656 | new state and reply as the step function says |
| `RaftImpl.Raft.HandleHeartbeat` | tinykv/raft/raft.go:659-669 | new state and reply as the step function says |
| `RaftImpl.Raft.StepFollower` | tinykv/raft/raft.go:362-424 | new state and messages as the step function says |
| `RaftImpl.Raft.StepCandidate` | tinykv/raft/raft.go:426-492 | new state and messages as the step function says |
| `RaftImpl.Raft.StepLeader` | tinykv/raft/raft.go:493-588 | new state and messages as the step function says |
| `RaftImpl.Raft.Step` | tinykv/raft/raft.go:336-360 | the class refines the node of the cluster model on every message: same state, same messages |
| `KeyCodec.EncodeEmbedsOrder` | tinykv/kv/util/codec/codec.go:27-48 | one string sorts before another if and only if its encoding does |
| `KeyCodec.EncodeOrder` | tinykv/kv/util/codec/codec.go:27-48 | a smaller string has the smaller encoding, whatever follows either of them |
| `KeyCodec.DecodeEncode` | tinykv/kv/util/codec/codec.go:52-84 | decoding an encoding followed by anything gives back the string and the rest |
| `KeyCodec.EncodeDecode` | tinykv/kv/util/codec/codec.go:52-84 | whatever decodes is the encoding of the result followed by the rest |
| `KeyCodec.DecodesIff` | tinykv/kv/util/codec/codec.go:52-84 | decoding succeeds if and only if the input begins with an encoding |
| `KeyCodec.PrefixFree` | tinykv/kv/util/codec/codec.go:27-48 | no encoding is a prefix of another |
| `KeyCodec.EncodedByte` | tinykv/kv/util/codec/codec.go:27-48 | every byte of an encoding and its length: groups of eight data bytes padded with zeros, each followed by 255, or in the last by 247 and the number of its data bytes |
| `KeyCodec.DecodeIs` | tinykv/kv/util/codec/codec.go:52-84 | what decoding does with any bytes: after the groups that end in 255, too few bytes, a marker below 247 or a padding byte other than zero is the error, else the rest is left over |
| `KeyCodec.KeyBytes` | tinykv/kv/transaction/mvcc/transaction.go:97-102 | the last eight bytes of an encoded key are the complement of the timestamp, most significant first |
| `KeyCodec.EncodeBytes` | tinykv/kv/util/codec/codec.go:27-48 | the group loop writes the encoding |
| `KeyCodec.DecodeBytes` | tinykv/kv/util/codec/codec.go:52-84 | the loop finds string and rest, or the error the first bad group gives |
| `KeyCodec.KeyOrder` | tinykv/kv/transaction/mvcc/transaction.go:97-102 | encoded keys sort by user key ascending, then by timestamp descending, in both directions |
| `KeyCodec.KeyRoundTrip` | tinykv/kv/transaction/mvcc/transaction.go:97-120 | user key and timestamp are recovered from every encoded key |
| `KeyCodec.EncodeKeyInPlace` | tinykv/kv/transaction/mvcc/transaction.go:97-102 | filling the buffer in place gives the encoded key |
| `KeyCodec.SplitKeepsVersionsTogether` | tinykv/kv/raftstore/runner/split_checker.go:47-54 | the bound made from any version of a user key is at or before every version of it and after every version of a smaller one |
| `KeyCodec.BoundSide` | tinykv/kv/raftstore/runner/split_checker.go:47-54 | every encoded key lies on the side of the bound that its user key decides |
| `SplitCheck.SizeSplitChecker.OnKv` | tinykv/kv/raftstore/runner/split_checker.go:118-126 | the running size grows by key and value, the split key is that of the first item to take it past the split size |
| `SplitCheck.SizeSplitChecker.GetSplitKey` | tinykv/kv/raftstore/runner/split_checker.go:128-134 | no key while the total is below the maximum, and the one kept is then cleared |
| `SplitCheck.CrossesOnce` | tinykv/kv/raftstore/runner/split_checker.go:118-126 | only one item takes the running size past a limit |
| `SplitCheck.TotalIsBytes` | tinykv/kv/raftstore/runner/split_checker.go:118-121 | the size counted is the number of bytes of the keys and values |
| `SplitCheck.BoundIs` | tinykv/kv/raftstore/runner/split_checker.go:47-54 | the bound is the encoding of the user key that the key begins with, or the key itself if there is none |
| `SplitCheck.Scan` | tinykv/kv/raftstore/runner/split_checker.go:80-94 | the scan stops at the end key or once past the maximum, whichever is first, with exactly the items before that counted |
| `SplitCheck.Check` | tinykv/kv/raftstore/runner/split_checker.go:73-96 | a key comes back only if the scanned total reaches the maximum, and is then the one that crosses the split size |
| `SplitCheck.Handle` | tinykv/kv/raftstore/runner/split_checker.go:37-70 | when a bound is sent and from which key; all keys that begin with the encoding of a user key are on one side of it, and it is before the region's end |
| `SplitCheck.BoundNeverSeparates` | tinykv/kv/raftstore/runner/split_checker.go:47-54 | no bound, made from an encoded or a raw key, falls among the keys that begin with the encoding of a user key |
| `SplitCheck.BoundAfterStartIff` | tinykv/kv/raftstore/runner/split_checker.go:47-54 | the bound from a key at or after a region's start is strictly after the start if and only if the start does not begin with it |
| `SplitCheck.SplitsOffIff` | tinykv/kv/raftstore/runner/split_checker.go:118-134 | in a region that starts at a user key, the bound is strictly after the start if and only if the versions of that user key do not pass the split size by themselves |
| `SplitCheck.NothingSplitOff` | tinykv/kv/raftstore/runner/split_checker.go:47-54 | for any split size, a version that passes it by itself and for which the bound is the start of its region |
| `RowRoundTrip.RoundTrip` | tinykv/kv/coprocessor/rowcodec/decoder.go:75-125 | every request on a built row gives the stored value, null for a null column and the default or null for an absent one, across the promotion to the large format |
| `RowRoundTrip.SurvivesIff` | tinykv/kv/coprocessor/rowcodec/encoder.go:154-167 | all values of a row come back from a new encoder if and only if its data is under 2^32 bytes and it is not a row of byte-sized ids with exactly 65535 bytes of data |
| `RowRoundTrip.HugeFails` | tinykv/kv/coprocessor/rowcodec/encoder.go:148-149 | a row of 2^32 bytes or more always loses a value, its last offset having wrapped |
| `RowRoundTrip.HugeRow` | tinykv/kv/coprocessor/rowcodec/encoder.go:148-149 | one column of so many bytes is such a row |
| `RowRoundTrip.ForgottenFails` | tinykv/kv/coprocessor/rowcodec/encoder.go:154-160 | such a row always loses a value, whatever the data |
| `RowRoundTrip.ParseBuilt` | tinykv/kv/coprocessor/rowcodec/common.go:87-112 | the bytes of a built row parse back to its ids, offsets and data in the format its size calls for |
| `RowRoundTrip.ColumnSlice` | tinykv/kv/coprocessor/rowcodec/common.go:71-85 | the bytes between a column's offsets are that column's encoding |
| `RowRoundTrip.NullTest` | tinykv/kv/coprocessor/rowcodec/decoder.go:128-176 | the null test holds exactly for a stored null, or an absent column without default |
| `RowFormat.CellRoundTrip` | tinykv/kv/coprocessor/rowcodec/common.go:162-220 | every signed, unsigned or byte value decodes to itself in its own type |
| `RowFormat.CellShortest` | tinykv/kv/coprocessor/rowcodec/common.go:162-207 | no shorter string of bytes decodes to the same value, so an integer is stored in the narrowest width that holds it |
| `RowLayout.SearchFinds` | tinykv/kv/coprocessor/rowcodec/decoder.go:85-110 | over ascending ids the binary search finds an id if and only if it is there |
| `RowEncoder.SortsLayout` | tinykv/kv/coprocessor/rowcodec/encoder.go:73-119 | distinct columns, separated and sorted, are the ascending lists of not-null and null columns the format needs |
| `RowEncoder.SortColumns` | tinykv/kv/coprocessor/rowcodec/encoder.go:221-283 | the sorters rearrange ids and values together and leave the ids ascending |
| `RowEncoder.Separate` | tinykv/kv/coprocessor/rowcodec/encoder.go:86-103 | the in-place pass puts not-null ids and values in front and null ids after them, each in their old order |
| `RowEncoder.Encoder.AddColumn` | tinykv/kv/coprocessor/rowcodec/encoder.go:31-43 | the encoder holds exactly the columns added so far, null ones counted apart, and knows whether an id is wide |
| `RowEncoder.Encoder.Promote` | tinykv/kv/coprocessor/rowcodec/encoder.go:139-150 | promotion in the middle of the loop carries over every id and offset so far |
| `RowEncoder.Encoder.Fill` | tinykv/kv/coprocessor/rowcodec/encoder.go:120-156 | the loop leaves data and offsets of all columns, promoted if and when the data passes 65535 bytes |
| `RowEncoder.Encoder.Encode` | tinykv/kv/coprocessor/rowcodec/encoder.go:45-52 | from any earlier use, the bytes are those defined for the sorted columns and the offsets left over, and a large row leaves its own offsets in their place |
| `RowDecoder.RowComesBack` | tinykv/kv/coprocessor/rowcodec/encoder.go:73-185 | in terms of the columns as given, in any order: each request gives the column's value as asked for, null for a null, the default for an absent id |
| `RowDecoder.AbsentReads` | tinykv/kv/coprocessor/rowcodec/decoder.go:114-122 | an id that is not stored reads as null if and only if it has no default, else as a column with the default's bytes would, and in the default's own type as its value |
| `RowRoundTrip.RowBytes` | tinykv/kv/coprocessor/rowcodec/encoder.go:168-185 | every byte of a row that comes back: version, format, counts, ids, ends and data, in the widths of its format |
| `RowDecoder.StoreThenLoad` | tinykv/kv/coprocessor/rowcodec/decoder.go:75-125 | columns through a new encoder and a decoder give every cell asked for, and an error if and only if a request cannot be met |
| `RowReuse.ReuseSurvivesIff` | tinykv/kv/coprocessor/rowcodec/encoder.go:154-167 | all values come back from a used encoder if and only if the row is large and under 2^32 bytes; or is under 65535 bytes and what is left over is no longer than its offsets and agrees with them in 16 bits; or is of 65535 bytes and what is left over are its own offsets, or is more and has every column written between its first ones |
| `RowReuse.SparedByMore` | tinykv/kv/coprocessor/rowcodec/encoder.go:154-160 | the last case with no room to spare: the offsets left over begin with the row's own and the data begins the bytes of the rest followed by itself |
| `RowReuse.EncodeAll` | tinykv/kv/coprocessor/rowcodec/encoder.go:45-52 | any number of rows through one encoder: what is left over for each are the offsets of the last large row before it, and the row survives if and only if it is spared by those |
| `RowReuse.ReuseLoses` | tinykv/kv/coprocessor/rowcodec/encoder.go:162-165 | two calls on one encoder after which the second row does not come back |
| `RowReuse.ReuseCanSave` | tinykv/kv/coprocessor/rowcodec/encoder.go:154-160 | a row of exactly 65535 bytes comes back after a large row with the same offsets, and not from a new encoder |
| `RowFormat.WrittenIff` | tinykv/kv/coprocessor/rowcodec/common.go:179-220 | bytes decode to a value, in its own type, if and only if it is written in them in as many bytes as the decoder looks at |
| `RowRoundTrip.ForgottenRow` | tinykv/kv/coprocessor/rowcodec/encoder.go:154-160 | one column of any 65535 bytes is such a row |
| `RowDecoder.Decoder.SetRow` | tinykv/kv/coprocessor/rowcodec/common.go:87-112 | the moving cursor takes a row apart as defined, with a wrong version and a short row told apart |
| `RowDecoder.Decoder.Find` | tinykv/kv/coprocessor/rowcodec/decoder.go:85-110 | the search loop gives what the search function gives |
| `RowDecoder.Decoder.Decode` | tinykv/kv/coprocessor/rowcodec/decoder.go:75-125 | appends one cell per requested column, the handle for the handle column, until one fails |
| `RowDecoder.Decoder.ColumnIsNull` | tinykv/kv/coprocessor/rowcodec/decoder.go:128-153 | the null test on raw row bytes |
| `TopN.TopNIsSortAndTake` | tinykv/kv/coprocessor/topn.go:120-139 | sorted, the rows kept are position by position equivalent to the first rows of the sort of all rows offered |
| `TopN.OfferAll` | tinykv/kv/coprocessor/topn.go:123-139 | after any sequence of offers the heap holds min(N, offered) of the rows and no row left out comes strictly before one kept |
| `TopN.TopNHeap.TryToAddRow` | tinykv/kv/coprocessor/topn.go:123-139 | one offer keeps the top N of what was seen and the heap order, and says whether the row was taken |
| `TopN.TopNHeap.Less` | tinykv/kv/coprocessor/topn.go:95-118 | the loop over the order-by items decides whether one row comes strictly after the other |
| `TopN.LeIff` | tinykv/kv/coprocessor/topn.go:95-118 | one row comes no later than another if and only if all keys are equal, or the first that differs is smaller for an ascending item and larger for a descending one |
| `TopN.TotalPreorder` | tinykv/kv/coprocessor/topn.go:95-118 | comparing item by item, with some items reversed, is a total preorder |
| `TopN.RootIsLatest` | tinykv/kv/coprocessor/topn.go:69-79 | the root of the heap is a maximum |
| `Latches.Exclusion` | tinykv/kv/transaction/latches/latches.go:42-79 | in every state of every interleaving no two commands hold a key, the latched keys are exactly the held ones, and all keys of a command are under one wait group of its own |
| `Latches.ReleaseCompletesOnce` | tinykv/kv/transaction/latches/latches.go:66-79 | a holder can always release, and that completes its wait group for the first and only time |
| `Latches.NoLostWaiter` | tinykv/kv/transaction/latches/latches.go:84-92 | a waiter holds nothing from the failed attempt, and waits for a wait group that is completed or belongs to a holder |
| `Latches.AcquireEffect` | tinykv/kv/transaction/latches/latches.go:42-62 | an attempt key by key: all keys under one new wait group, or waiting on the group of the first that is latched with nothing else changed |
| `Latches.StepInv` | tinykv/kv/transaction/latches/latches.go:42-92 | acquiring, releasing and waking keep the invariant over table, holders and waiters |
| `Latches.LatchTable.AcquireLatches` | tinykv/kv/transaction/latches/latches.go:42-62 | all keys under one new wait group, or nothing changed and the wait group of the first latched key returned |
| `Latches.LatchTable.ReleaseLatches` | tinykv/kv/transaction/latches/latches.go:66-79 | exactly the keys given leave the table and the wait group of the first is completed |
| `RegionOverlap.GetOverlapRegions` | tinykv/kv/raftstore/raftstore.go:62-85 | the descent and ascent return, in order, exactly the regions that the query starts before the end of and ends after the start of |
| `RegionOverlap.RightIff` | tinykv/kv/raftstore/raftstore.go:62-85 | that is the regions with a key in common with the query if and only if the query holds a key or starts in no region that starts before its end |
| `RegionOverlap.ContainsIff` | tinykv/kv/util/engine_util/util.go:105-110 | a region contains the keys at or after its start and, if its end is not empty, before its end, in byte order |
| `RegionOverlap.OverlapIff` | tinykv/kv/util/engine_util/util.go:105-110 | two ranges have a key in common if and only if neither is empty and neither starts at or past the other's end |
| `RegionOverlap.EmptyQueryHits` | tinykv/kv/raftstore/raftstore.go:62-85 | a query without keys for which a region is returned |
| `SnapStream.Transfer` | tinykv/kv/raftstore/snap/snap.go:704-767 | however reads come out and chunks are cut, a receiver with the sender's sizes ends up with the sender's files |
| `SnapStream.CutConcat` | tinykv/kv/raftstore/snap/snap.go:704-767 | cutting a stream by the sizes of the files it is made of gives back the files |
| `SnapStream.Sender.Read` | tinykv/kv/raftstore/snap/snap.go:704-726 | the next bytes of the stream of all files, the end exactly when nothing is left |
| `SnapStream.Sender.ReadFull` | tinykv/kv/storage/raft_storage/snap_runner.go:104-107 | fills the buffer from any short reads if and only if the stream has that much left |
| `SnapStream.SendSnap` | tinykv/kv/storage/raft_storage/snap_runner.go:99-112 | the chunks are of the chunk length, the last one non-empty and no longer, and put together are the stream |
| `SnapStream.Receiver.Write` | tinykv/kv/raftstore/snap/snap.go:729-767 | takes the whole buffer, or as much as fills all files, and adds exactly that to the stream received |
| `SnapStream.Receiver.FilesAreCut` | tinykv/kv/raftstore/snap/snap.go:729-767 | at any time the files are the stream received so far, cut by their sizes, however it was chunked |
| `SnapStream.RecvSnap` | tinykv/kv/storage/raft_storage/snap_runner.go:156-172 | succeeds if and only if no chunk is empty and all fit, each file then holding its own slice |

## Left out

- Crash and restart in a run, and what of term and vote is persisted: `Ready`, `HasReady` and `Advance` are stubs in the source. `Restored` is not a step of the cluster.
- Raft snapshots, compaction inside `RaftLog`, membership change and leader transfer: empty functions in the source.
- The entry type: `sendAppend` does not copy it; entries are index, term and data.
- Aliasing between the slices of `RaftLog.entries` and `MemoryStorage.ents`: both are value sequences.
- Ticks, election timeouts and their randomness: `Hup` and `Beat` may happen at any moment. Liveness is not stated beyond `ExchangeRepairs`.
- Overflow of terms and indices: they are unbounded, except for the wrap of `Next`.
- `MemoryStorage.CreateSnapshot` and the conf state and data of a snapshot: a snapshot is its index and term.
- Datum kinds other than integers, strings and bytes, and `convertDefaultValue`: they go through the TiDB codec.
- Row slices: a capacity beyond the length of a slice, which would let an index past a parsed list succeed, and big-endian machines.
- `EncodeFromOldRow`: it parses the old TiDB row format.
- TopN.TopNHeap.Less: does not model datum kinds and errors of their comparison, because those are the TiDB library's; keys are integers, compared item by item. `container/heap` is modelled by its sifting loops.
- RaftImpl.Raft.constructor: takes the configuration to be valid. Over a storage with a compacted prefix it gives the node, but the steps are modelled for uncompacted logs only, because compaction inside `RaftLog` is empty in the source.
- Overflow of the running size in the split check: sizes are unbounded.
- The mutex of the latches: each call is one atomic step. `WaitForLatches` appears as the steps of the interleaving; that a waiter is eventually served is not stated, since the source does not promise it.
- The B-tree of region ranges, Badger, files, checksums and directories of snapshots: sorted sequences and byte buffers stand for them.
- MVCC transactions, the scanner, the transactional handlers and the raftstore's ready loop: stubs in the source.
- gRPC, the scheduler, configuration, logging and generated code.
