# A verified model of the Raft, sharded store and linearizability checker code

This project models four parts of the repository and proves what they are for. Every statement is for all inputs,
all reachable states or all runs; nothing is bounded.

**Raft with log compaction** (`src/raft`). `RaftHandlers` gives every locked handler as a function on a server's
fields, and `RaftServer` is the object itself, whose methods update the fields in place with the loops of the code and are
proved to do exactly that. `RaftSystem` is a cluster: servers, a set of packets that may be lost, repeated or
reordered, crashes, restarts from what was persisted, and the service above each server. The safety argument (sections 5.2, 5.3,
5.4 and 7 of "In Search of an Understandable Consensus Algorithm (Extended Version)") is made on full logs that are never cut
(`RaftProtocol`, `RaftProtocolSteps`); `RaftCompaction` proves that the compacted log, its offset arithmetic and the
public index refine a full log; `RaftInvariant`, `RaftSteps` and `RaftReplicationSteps` tie the two together
event by event, and `RaftSafety` states the theorems over runs of the cluster as it is stored. `RaftProgress`, `RaftAnswers` and
`RaftSnapshots` say what each event of a run achieves, without naming how the handlers compute it.

**The linearizability checker** (`src/porcupine`, `src/models/kv.go`). `PorcupineHistory` defines linearizability (Herlihy
and Wing 1990); `PorcupineSearch` proves depth-first search with a cache sound and complete over any space of
configurations; `PorcupineList` and `PorcupineBitset` are the linked nodes on the heap and the words of the bitset;
`PorcupineChecker` is the search loop, proved to decide linearizability, to end, and to record longest partial
linearizations. `PorcupineEntries`, `PorcupineKv` and `PorcupineCheck` go from timed operations or numbered events to a verdict on a whole
key-value history, by locality (section 3.1 of that paper); `PorcupineKvValues` says what that means for the answers.

**Shard migration** (`src/shardkv/server.go`). `ShardHandlers` and `ShardServer` are a group's state machine and the
object that applies its log in place. `ShardSystem` puts all groups together: a ticker or a reply may come from any state
the group has been in, and what is proposed may be applied late, many times or never. `ShardLane` proves the life of
one shard across the groups, `ShardInvariant` and `ShardSteps` lift it to all shards, `ShardSafety` states the theorems over runs, and
`ShardReturn` shows by construction that the one condition they need is exact. `ShardValues` says what is in a shard in
terms of what clients asked for.

**Placement and the replicated services** (`src/shardmaster/server.go`, `src/kvraft/server.go`). `Rebalance` and `RebalanceSteps`
prove the allocator optimal for any number of shards; `ShardMaster` is the allocator on an array and the server that numbers
configurations; `ShardConfigs` says which groups they have; `ShardChain` connects its configurations to the groups. `KvRaft` is the key-value service with its
clients' retry loop. `Writes` defines once what puts and appends leave at a key, for all three services.

How the parts read where the code leaves a choice:

- A whole handler is one step: winning the vote together with `initLeader` (src/raft/RequestVote.go:253-263),
  `AppendEntries` including both persists (src/raft/AppendEntries.go:240-276), testing and advancing `lastApplied`
  (src/raft/AppendEntries.go:55-57), and installing a snapshot together with handing it to the service in
  handler order (src/raft/AppendEntries.go:196-218). The arguments of a vote request are read outside the lock
  (src/raft/RequestVote.go:139-142); the model lets them be those of any moment of the server.
- `Make` persists what it starts with before any handler can run (src/raft/raft.go:524), so the first disk already holds
  a record: a server that restarts at once takes `commitIndex` and `lastApplied` 0 from it, no longer -1. In between lies
  only the sentinel, which is never delivered. Only a crash inside that first `Make` would find empty data
  (src/raft/raft.go:332-336), and it leaves a new server.
- The count of votes is a set of peers: one goroutine counts one reply per peer and campaign.
- The cluster's service has the sharded store's guard against old snapshots (src/shardkv/server.go:696). The plain
  key-value service has none; `RaftHandover` says exactly when that matters, and `RaftLateSnapshot` is a run in which it does.
- In the same term a vote is refused at `>=` (src/raft/RequestVote.go:81), stricter than section 5.4.1; a leader that
  meets an AppendEntries call of its own term steps down and refuses it. The model does as the code does.
- `Equal` on model states is equality. Histories are well formed: ids 0 to n-1, each called once and then returning once.
- Word operations of the bitset are given on binary digits of numbers below 2^64; a cached bitset is a copy, because
  the code clones it and never changes the clone again.
- Library sorts (`sort.Sort`, `sort.Strings`, `sort.Ints`) are insertion sorts; what is proved about their results holds for any sort.
- `NShards` is any number in the allocator and 10 in the groups. A group is one state machine: its replicas differ
  only in how far they are, which `HandleMsg` proves.
- The search loop of the checker is cut into methods for its branches; they share the heap nodes and the bitset array.

## Model

| member | source | states |
|---|---|---|
| RaftSafety.StateMachineSafety | src/raft/AppendEntries.go:40-86 | In every run, commands delivered under the same CommandIndex, by any servers at any times, are equal |
| RaftSafety.DeliveriesConsecutive | src/raft/AppendEntries.go:55-81 | Each delivery carries the index right after what the service already has, and appends that command |
| RaftSafety.ServicesAgree | src/raft/AppendEntries.go:184-218 | Whatever two services contain, at whatever times and through whatever snapshots, one is a prefix of the other |
| RaftSafety.LeaderCompletenessCompacted | src/raft/AppendEntries.go:697-740 | What a server has committed by a term is held by every leader of that or a later term: all its commands, under the snapshot or in the log, and beyond both snapshots the same entries, no-ops and terms included |
| RaftSafety.LogMatchingCompacted | src/raft/AppendEntries.go:282-349 | Two compacted logs, at any times, that agree on the term at a real index agree on that entry and on all commands up to it |
| RaftSafety.ElectionSafety | src/raft/RequestVote.go:253-263 | At most one server is ever leader in a term, over runs with crashes and restarts |
| RaftSafety.IndexSafety | src/raft/AppendEntries.go:613-634 | No index or slice expression of any event is out of range in any reachable state |
| RaftSafety.NextIndexBounded | src/raft/AppendEntries.go:435-478 | A leader never has nextIndex beyond one past its log, even after a follower answered with its own snapshot bound |
| RaftSafety.LeaderCommitCovered | src/raft/AppendEntries.go:363-364 | Every AppendEntries call has LeaderCommit at most PrevLogIndex + len(Entries) |
| RaftSafety.PublicIndexStable | src/raft/raft.go:135-216 | Through any sequence of Snapshot, Start and restart, entries beyond the snapshot keep their public index and are still found by it |
| RaftSafety.Next | src/raft/AppendEntries.go:240-276 | Every event of the cluster keeps the invariant, and what was committed or accepted before still is |
| RaftProgress.CommitsAllItMay | src/raft/AppendEntries.go:692-740 | When a leader of any run checks, it commits the largest entry of its term that it knows to be on a majority, if that is more than it had: everything that the rule allows is committed, and nothing else |
| RaftProgress.StartAnswers | src/raft/raft.go:389-408 | In every run Start answers the number of commands that the leader then holds, the last of which is the new one, with its term; elsewhere it answers false and changes nothing |
| RaftProgress.StartedIsDelivered | src/raft/raft.go:401-407 | Once any server has committed that entry, whatever any server of the run ever delivers under the index that Start answered is that command |
| RaftProgress.DeliveredIsCommitted | src/raft/AppendEntries.go:55-81 | What is delivered under an index is the command with that number in any prefix that any server has committed |
| RaftAnswers.VotesAreRight | src/raft/RequestVote.go:43-102 | Every vote request of a run is answered in the later of the two terms, and granted exactly when it should be: in a new term if the candidate is not behind, in the same term if it has the vote already or nobody has and it is strictly ahead |
| RaftAnswers.VotesAreCounted | src/raft/RequestVote.go:110-130 | A granted vote counts for the running election only, a refusal in a later term ends it, anything else changes nothing |
| RaftAnswers.StaleCandidateLearns | src/raft/RequestVote.go:94-102 | A candidate of an old term that is refused takes the term of the voter over from the answer |
| RaftAnswers.CampaignOpens | src/raft/RequestVote.go:210-213 | A timeout opens an election in the next term with one vote and leaves the log alone |
| RaftAnswers.AsksForItself | src/raft/RequestVote.go:139-142 | What is asked of the others names the candidate, its term and the end of its log |
| RaftAnswers.WinnerLeads | src/raft/RequestVote.go:253-263 | Who wins leads the same term with one more entry, a no-op, and starts just after it for every peer |
| RaftAnswers.SendsAllFromNext | src/raft/AppendEntries.go:537-634 | A leader sends all entries from nextIndex on with the entry before them, or its snapshot when that covers nextIndex |
| RaftAnswers.EntriesAreRight | src/raft/AppendEntries.go:222-379 | Every AppendEntries call of a run is accepted exactly when a server that is no leader has the entry before; then all sent entries are stored at their indices, nothing before them has changed, the log is the same if it had them all and ends with them if not, and the commit index follows the leader's as far as the log goes |
| RaftAnswers.AcceptanceAdvances | src/raft/AppendEntries.go:480-504 | An acceptance moves matchIndex to the end of what was sent and nextIndex just after it; a later term ends leadership |
| RaftAnswers.RefusalMovesBack | src/raft/AppendEntries.go:435-478 | After a refusal by a follower in its term the leader goes on behind what it sent, or at its own snapshot, but never below an entry that both have; it goes forward only to just after a follower's snapshot that reaches further |
| RaftAnswers.LastOfTermFinds | src/raft/AppendEntries.go:450-456 | The search ends at the last entry of the term, or at the snapshot |
| RaftAnswers.TermStartFinds | src/raft/AppendEntries.go:309-312 | The search ends at the first entry of the run of equal terms |
| RaftSnapshots.SnapshotTaken | src/raft/raft.go:243-305 | In every run a snapshot with more commands than the server's own replaces it: the log ends just behind the command with that number, and what is beyond stays; any other changes nothing |
| RaftSnapshots.SnapshotsAreRight | src/raft/AppendEntries.go:90-219 | Every InstallSnapshot call is handled rightly: an old term is refused, a covered snapshot changes nothing, any other takes the place of what it covers, the log beyond it stays exactly if the server had the entry at its end, and indices and service reach at least its end |
| RaftSnapshots.SnapshotAcknowledged | src/raft/AppendEntries.go:567-594 | The leader goes on just after the snapshot for that peer, or leaves a term that has ended |
| RaftSnapshots.RestartKeeps | src/raft/raft.go:332-378 | A restart keeps term, vote, log and snapshot, and goes back to what the snapshot covers |
| RaftSnapshots.AppliesNext | src/raft/AppendEntries.go:55-81 | Each turn applies exactly the next entry: a command is handed over under the number of commands the service then has, a no-op is passed over |
| RaftHandover.UnguardedExactly | src/kvraft/server.go:306-308 | Replacing the service state by an installed snapshot is right if and only if the service is not ahead of it |
| RaftHandover.UnguardedRunExactly | src/kvraft/server.go:306-308 | Over a whole run, with restarts, the unguarded service is always what it should be if and only if it is never handed a snapshot that it is ahead of |
| RaftHandover.NotHandedAgain | src/raft/AppendEntries.go:55-81 | Until it restarts, a server never hands over again a command that its service has had |
| RaftLateSnapshot.LateSnapshotLosesCommand | src/raft/AppendEntries.go:186-218 | A run of three servers whose last event is a late snapshot: the unguarded service of the follower, which had applied two commands, is back at the first, and gets the second again only by a restart or a newer snapshot |
| RaftProtocol.LeaderCompleteness | src/raft/AppendEntries.go:697-740 | On full logs: what a majority accepted in a term is in the log of every later leader (section 5.4.3) |
| RaftProtocol.CommittedComparable | src/raft/AppendEntries.go:732-739 | Of any two committed logs one is a prefix of the other |
| RaftProtocol.LogMatching | src/raft/AppendEntries.go:284-349 | On full logs: same term at an index, same log up to it |
| RaftProtocolSteps.BumpInv | src/raft/RequestVote.go:43-60 | Taking over a higher term and clearing the vote keeps the invariant |
| RaftProtocolSteps.CampaignInv | src/raft/RequestVote.go:210-213 | Standing in a new term with a vote for oneself keeps it |
| RaftProtocolSteps.VoteInv | src/raft/RequestVote.go:52-89 | A vote for a candidate whose log is at least as up to date keeps it (section 5.4.1) |
| RaftProtocolSteps.LeadInv | src/raft/RequestVote.go:253-262 | A majority of votes makes a leader that has all that its voters accepted before |
| RaftProtocolSteps.AppendInv | src/raft/raft.go:401-406 | A leader appending to its own log keeps it |
| RaftProtocolSteps.AcceptInv | src/raft/AppendEntries.go:326-349 | A follower that takes over a prefix of its leader's log loses nothing that was committed |
| RaftSteps.MajorityMayLead | src/raft/RequestVote.go:253-253 | A majority of counted votes really is a majority of votes cast for this candidate in this term |
| RaftSteps.VoteInHigherTerm | src/raft/RequestVote.go:43-60 | The vote handler in a higher term keeps the invariant and answers truthfully |
| RaftSteps.VoteInSameTerm | src/raft/RequestVote.go:65-94 | The vote handler in the same term never votes twice, though it refuses equally long logs |
| RaftSteps.AppendArgsInv | src/raft/AppendEntries.go:613-634 | The call built for a peer is a slice of the leader's log and commits no more than it covers |
| RaftReplicationSteps.ConflictBounded | src/raft/AppendEntries.go:284-317 | A refusal never names an index past the leader's log, even when it names the follower's own snapshot |
| RaftReplicationSteps.MergedCommit | src/raft/AppendEntries.go:363-364 | min(LeaderCommit, lastLogIndex) covers only what is committed |
| RaftReplicationSteps.MergeKeepsCommitted | src/raft/AppendEntries.go:328-349 | Conflict-only truncation never touches what is committed |
| RaftReplicationSteps.HoldersCommit | src/raft/AppendEntries.go:715-739 | What the commit rule counts is a majority that accepted the entry in this term; the unacknowledged initial matchIndex never counts |
| RaftReplicationSteps.HandedMatches | src/shardkv/server.go:692-701 | The guarded service ends up with exactly the applied commands, however stale the snapshot is |
| RaftReplicationSteps.AlreadyCovered | src/raft/AppendEntries.go:125-130 | A snapshot no newer than the server's own covers nothing that its log does not have |
| RaftReplicationSteps.SnapshotStep | src/raft/AppendEntries.go:90-219 | Installing a snapshot keeps the invariant |
| RaftReplicationSteps.EntriesStep | src/raft/AppendEntries.go:222-379 | Handling AppendEntries keeps the invariant |
| RaftReplicationSteps.EntriesReplyStep | src/raft/AppendEntries.go:395-504 | Handling its reply keeps the invariant |
| RaftReplicationSteps.CommitStep | src/raft/AppendEntries.go:673-740 | Advancing commitIndex keeps the invariant |
| RaftReplicationSteps.CrashStep | src/raft/raft.go:332-378 | A crash and restart from the disk keeps the invariant |
| RaftCompaction.RealToPublicCounts | src/raft/raft.go:135-164 | Beyond the snapshot the public index is the number of commands of the full log |
| RaftCompaction.RealToPublicElsewhere | src/raft/raft.go:158-163 | Asked for an index that is not stored beyond the snapshot, it answers the number of all commands |
| RaftCompaction.PublicToRealFinds | src/raft/raft.go:171-216 | The search finds the command with that number, the snapshot bound, or nothing, and which of them when |
| RaftCompaction.PublicRealInverse | src/raft/raft.go:135-216 | On commands beyond the snapshot the two index maps are inverse |
| RaftCompaction.SnapshotRefines | src/raft/raft.go:243-305 | Snapshot cuts the stored log and nothing of the full log |
| RaftCompaction.RestartRefines | src/raft/raft.go:332-378 | A restart from a mirroring disk restores the same full log |
| RaftCompaction.MergeEntriesRefines | src/raft/AppendEntries.go:328-349 | The append loop on the compacted log merges the leader's prefix into the full log |
| RaftCompaction.LogUnderSnapshotRefines | src/raft/AppendEntries.go:141-176 | Keeping the tail under a snapshot, or dropping the log, merges the covered prefix into the full log |
| RaftCompaction.TakeEntriesRefines | src/raft/AppendEntries.go:322-369 | Taking entries refines that merge |
| RaftServer.Raft.constructor | src/raft/raft.go:430-517 | A new instance, on an empty or an existing disk |
| RaftServer.Raft.ReadPersist | src/raft/raft.go:332-378 | Restores what was persisted and sets commitIndex and lastApplied to the snapshot |
| RaftServer.Raft.RealToPublicIndex | src/raft/raft.go:135-164 | The counting loop computes the public index |
| RaftServer.Raft.PublicToRealIndex | src/raft/raft.go:171-216 | The search loop computes the real index |
| RaftServer.Raft.TakeSnapshot | src/raft/raft.go:243-305 | Cuts the log in place as Snapshot says, or does nothing |
| RaftServer.Raft.StartCommand | src/raft/raft.go:389-408 | Appends and persists on a leader, refuses elsewhere; what its three answers mean is RaftProgress.StartAnswers |
| RaftServer.Raft.BeginElection | src/raft/RequestVote.go:210-213 | Becomes candidate of the next term with its own vote, persisted |
| RaftServer.Raft.OnRequestVote | src/raft/RequestVote.go:26-103 | The whole vote handler |
| RaftServer.Raft.OnRequestVoteReply | src/raft/RequestVote.go:110-130 | Steps down or counts the peer |
| RaftServer.Raft.WinElection | src/raft/RequestVote.go:253-263 | Becomes leader with a no-op entry and fresh peer indices |
| RaftServer.Raft.InitLeader | src/raft/AppendEntries.go:755-774 | nextIndex one past the log, matchIndex at the snapshot |
| RaftServer.Raft.AppendArgs | src/raft/AppendEntries.go:613-634 | The call for a peer, sliced by offset |
| RaftServer.Raft.MergeInto | src/raft/AppendEntries.go:328-349 | The append loop |
| RaftServer.Raft.FirstOfTerm | src/raft/AppendEntries.go:309-312 | Walks back over the conflicting term |
| RaftServer.Raft.OnAppendEntries | src/raft/AppendEntries.go:222-379 | The whole AppendEntries handler with its reply |
| RaftServer.Raft.SearchTerm | src/raft/AppendEntries.go:450-456 | Walks back to the last entry of the conflicting term |
| RaftServer.Raft.OnAppendEntriesReply | src/raft/AppendEntries.go:395-504 | Steps down, backs up, or advances the peer |
| RaftServer.Raft.CountHolders | src/raft/AppendEntries.go:716-728 | Counts the servers that hold an entry |
| RaftServer.Raft.AdvanceCommit | src/raft/AppendEntries.go:692-740 | The commit rule in place; RaftProgress.CommitsAllItMay says what it reaches |
| RaftServer.Raft.ApplyOne | src/raft/AppendEntries.go:56-80 | Advances lastApplied and makes the message, if there is a command |
| RaftServer.Raft.OnInstallSnapshot | src/raft/AppendEntries.go:90-219 | The whole InstallSnapshot handler with its reply and the message to the service |
| RaftServer.Raft.OnInstallSnapshotReply | src/raft/AppendEntries.go:567-594 | Steps down, or sets the peer to the snapshot |
| PorcupineChecker.CheckSingle | src/porcupine/checker.go:174-248 | True if and only if the history is linearizable; on success every record is a linearization, on failure with computePartial each is a longest partial linearization with that operation or none exists; it ends and never dereferences nil |
| PorcupineChecker.CacheContains | src/porcupine/checker.go:140-147 | True exactly when this pair of set and state was put in before |
| PorcupineChecker.InOneBucket | src/porcupine/checker.go:140-147 | Looking in one bucket is enough, because equal sets hash equally |
| PorcupineChecker.InsertStands | src/porcupine/checker.go:196-197 | Appending to the bucket adds exactly that configuration |
| PorcupineChecker.Visit | src/porcupine/checker.go:193-197 | Looks up and remembers a configuration |
| PorcupineChecker.CallIsMinimal | src/porcupine/checker.go:189-191 | A call in the list before any return may be linearized next |
| PorcupineChecker.ReturnBlocks | src/porcupine/checker.go:209-212 | At the first return, everything that may be next has been looked at |
| PorcupineChecker.StepDown | src/porcupine/checker.go:198-202 | Taking a call keeps list, stack, bitset and cache in step |
| PorcupineChecker.StepUp | src/porcupine/checker.go:210-236 | Undoing a call restores the list to what it was and goes on behind it |
| PorcupineChecker.NoteLongest | src/porcupine/checker.go:214-229 | Notes the current path for each operation on it that has no longer one |
| PorcupineChecker.NoneExists | src/porcupine/checker.go:210-212 | Nothing left to undo at a return: there is no linearization |
| PorcupineChecker.LongestRecorded | src/porcupine/checker.go:213-229 | After an exhausted search each record is of maximum length |
| PorcupineChecker.LiftStep | src/porcupine/checker.go:201-201 | Lifting leaves the history minus the linearized operations, in order |
| PorcupineChecker.UnliftStep | src/porcupine/checker.go:235-235 | Unlifting in last-in-first-out order restores it |
| PorcupineSearch.ExhaustedSees | src/porcupine/checker.go:195-204 | When the root is exhausted every path has been seen: pruning by the cache loses nothing |
| PorcupineSearch.Descends | src/porcupine/checker.go:195-202 | A step down to a new configuration keeps what the search knows |
| PorcupineSearch.Returns | src/porcupine/checker.go:230-236 | A step back keeps it |
| PorcupineSearch.RecordMaximal | src/porcupine/checker.go:213-229 | The record has, for each operation of any path, a path at least as long |
| PorcupineSearch.WithinClosed | src/porcupine/checker.go:185-238 | The space of configurations is finite and no step leaves it |
| PorcupineHistory.CompletePartial | src/porcupine/checker.go:239-247 | A linearization is exactly a partial linearization of all operations |
| PorcupineHistory.PathsArePartial | src/porcupine/checker.go:185-238 | The paths of the search are exactly the partial linearizations |
| PorcupineList.Lift | src/porcupine/checker.go:154-162 | Takes a call and its return out; both remember their neighbours |
| PorcupineList.Unlift | src/porcupine/checker.go:164-172 | Puts them back |
| PorcupineList.InsertBefore | src/porcupine/checker.go:65-76 | Inserts before a node of a doubly linked list |
| PorcupineList.MakeLinkedEntries | src/porcupine/checker.go:116-133 | Builds the list with each call pointing at its return |
| PorcupineList.Length | src/porcupine/checker.go:78-85 | Counts the nodes |
| PorcupineBitset.NewBitset | src/porcupine/bitset.go:10-17 | The empty set, in just enough words |
| PorcupineBitset.Clone | src/porcupine/bitset.go:19-23 | A copy |
| PorcupineBitset.SetBit | src/porcupine/bitset.go:29-33 | Adds one element and changes no other |
| PorcupineBitset.ClearBit | src/porcupine/bitset.go:35-39 | Removes one element and changes no other |
| PorcupineBitset.GetBit | src/porcupine/bitset.go:41-44 | Membership |
| PorcupineBitset.Popcnt | src/porcupine/bitset.go:46-52 | The size of the set |
| PorcupineBitset.Hash | src/porcupine/bitset.go:54-60 | The population count folded with the words |
| PorcupineBitset.Equals | src/porcupine/bitset.go:62-72 | Equality of the words |
| PorcupineBitset.SameMembers | src/porcupine/bitset.go:62-72 | Words of one length are equal exactly when they stand for the same set |
| PorcupineBitset.EqualSetsHashEqually | src/porcupine/bitset.go:54-60 | Equal sets hash equally |
| PorcupineEntries.MakeEntries | src/porcupine/checker.go:43-55 | Sorting calls and returns by time gives a well-formed history with the same inputs and outputs, and the same real-time order up to a return and a call of one time, which may come either way |
| PorcupineEntries.SortByTime | src/porcupine/checker.go:53-53 | A sorted rearrangement |
| PorcupineEntries.EntriesSame | src/porcupine/checker.go:43-55 | The sorted history is linearizable only if the operations are by their timestamps, and it is if they are with every tie read as one after the other |
| PorcupineEntries.UntiedSame | src/porcupine/checker.go:39-41 | Where no return has the time of a call both readings are the same, so the verdict is exact |
| PorcupineEntries.Renumber | src/porcupine/checker.go:87-101 | Numbers ids 0, 1, 2, ... in the order of first occurrence, keeping which are equal |
| PorcupineEntries.RenumberedWellFormed | src/porcupine/checker.go:103-114 | Renumbered events are a well-formed history |
| PorcupineKv.Locality | src/models/kv.go:18-54 | A history is linearizable against the whole map if and only if each class of the partition is against one key's value |
| PorcupineKvValues.LinearizableMeans | src/models/kv.go:35-54 | A key-value history is linearizable exactly when some order of all operations respects real time and every get answers the last put before it on its key followed by the appends in between |
| PorcupineKvValues.RunIsRight | src/models/kv.go:40-54 | The model accepts an order exactly when all gets in it answer so, and then holds what was written |
| PorcupineKv.RunSplits | src/models/kv.go:40-54 | The whole map accepts an order exactly when each key accepts its part, and then holds each key's value |
| PorcupineKv.Merge | src/porcupine/model.go:28-33 | Orders of the keys that respect real time can be merged into one that does |
| PorcupineKv.InSomeClass | src/models/kv.go:20-23 | Every operation is in some class |
| PorcupineKv.InOneClass | src/models/kv.go:20-23 | None is in two or twice in one, and classes keep the order of the history |
| PorcupineCheck.Partition | src/models/kv.go:18-34 | The classes of all keys, in the order of the keys |
| PorcupineCheck.PartitionDetermined | src/models/kv.go:24-32 | The result does not depend on the order of the map |
| PorcupineCheck.CheckParallel | src/porcupine/checker.go:269-348 | The conjunction over the classes, with what was recorded |
| PorcupineCheck.CheckOperations | src/porcupine/checker.go:360-368 | A key-value history without ties is accepted if and only if it is linearizable against the whole map; with ties, what is accepted is linearizable, and what is linearizable with each tie read as one after the other is accepted; for every class searched the records are partial linearizations, longest ones after a failed verbose check |
| PorcupineCheck.CheckEvents | src/porcupine/checker.go:350-358 | Accepted if and only if every renumbered class is linearizable, with the same promise about the records |
| PorcupineCheck.Replay | src/porcupine/visualization.go:62-78 | Replaying a recorded partial linearization never meets a refused step, so the panic is unreachable |
| PorcupineCheck.ReplayClass | src/porcupine/visualization.go:36-79 | Every record that the check of a class left is replayed to its end |
| PorcupineCheck.CheckAndReplay | src/porcupine/visualization.go:33-87 | After a verbose check of any key-value history every record of every class is replayed to its end |
| ShardSafety.ExclusiveOwnership | src/shardkv/server.go:162-208 | In every reachable state at most one group has a shard in Serving or GCing |
| ShardSafety.NoUpdateMidMigration | src/shardkv/server.go:849-863 | No group applies its next configuration while any of its shards is on the move, though applying checks only the number |
| ShardSafety.ServedCopyIsComplete | src/shardkv/server.go:121-158 | A copy that is served equals the fold of the operations that took effect on the shard over all groups |
| ShardSafety.NeverLost | src/shardkv/server.go:302-315 | Once an operation took effect there always is a complete copy, served or being pushed |
| ShardSafety.AtMostOnce | src/shardkv/server.go:134-157 | No operation takes effect twice, on any shard or group |
| ShardSafety.CommandsIncrease | src/shardkv/server.go:134-157 | A client's commands take effect on a shard in increasing order across moves |
| ShardSafety.DeleteKeepsData | src/shardkv/server.go:302-315 | When a deletion erases a copy another group has the complete one |
| ShardSafety.PushingIsAwaited | src/shardkv/server.go:317-333 | A copy that is being pushed always has its receiver still to come, pulling, or in GCing |
| ShardReturn.ExclusiveExactly | src/shardkv/server.go:178-195 | Ownership is exclusive in every run if and only if a shard left without a group comes back to the group that had it last |
| ShardReturn.ServesBoth | src/shardkv/server.go:178-195 | For every other chain a run is built in which two groups serve the shard |
| ShardReturn.Advance | src/shardkv/server.go:834-880 | All groups at rest in a configuration can all come to rest in the next |
| ShardLane.Bump | src/shardkv/server.go:174-204 | Moving to the next configuration keeps the invariant of a shard |
| ShardLane.Insert | src/shardkv/server.go:212-250 | Inserting what was fetched hands the shard over and loses nothing |
| ShardLane.Delete | src/shardkv/server.go:302-315 | Deleting keeps it, and the holder is another group |
| ShardLane.Complete | src/shardkv/server.go:319-333 | Leaving GCing keeps it, once the old copy is gone |
| ShardLane.Client | src/shardkv/server.go:121-158 | An operation that takes effect does so on the one copy that counts |
| ShardLane.FetchedStays | src/shardkv/server.go:756-801 | What was fetched stays the frozen copy until it comes too late |
| ShardLane.ServingHolds | src/shardkv/server.go:130-132 | Only the holder serves |
| ShardInvariant.AskConfigOk | src/shardkv/server.go:849-878 | A proposal made at a settled state finds the group settled when it is applied |
| ShardInvariant.FetchOk | src/shardkv/server.go:804-831 | What a possibly lagging old group answers is its frozen copy, or the hand-over has happened |
| ShardInvariant.SendDeleteOk | src/shardkv/server.go:555-606 | A deletion is asked for only after the hand-over |
| ShardInvariant.DeleteAcknowledgedOk | src/shardkv/server.go:609-623 | OK from the old group means that its copy is gone |
| ShardSteps.CommitKeeps | src/shardkv/server.go:627-663 | Applying any log entry keeps the invariant of all shards |
| ShardHandlers.StaysIncreasing | src/shardkv/server.go:134-157 | What is no duplicate comes after all earlier commands of its client |
| ShardHandlers.InsertIntoEmpty | src/shardkv/server.go:230-246 | Merging into an empty shard copies the data |
| ShardServer.ShardKV.constructor | src/shardkv/server.go:905-919 | Starts with an empty configuration and no shards |
| ShardValues.OperationMeans | src/shardkv/server.go:121-158 | A new operation on a serving shard does to its key what a put, an append or a read is for, and the table remembers it; any other changes nothing, and nothing else changes |
| ShardValues.TakesEffectExactly | src/shardkv/server.go:136-157 | In every run an applied operation takes effect exactly when the group serves the shard of its key and none of the client with its number or a later one has, on any group |
| ShardValues.ServedValues | src/shardkv/server.go:143-151 | In every run each key of a served shard has the value of the last put on it that took effect, on whatever group, followed by what later effective appends added, and no other key is there |
| ShardValues.InsertMeans | src/shardkv/server.go:212-250 | The keys of a fetched copy win, client numbers only if they are larger, nothing is lost, and it happens once |
| ShardServer.ShardKV.ApplyClientOperation | src/shardkv/server.go:121-158 | Applies a client operation in place; what that does to the keys is ShardValues.OperationMeans |
| ShardServer.ShardKV.ApplyConfiguration | src/shardkv/server.go:162-208 | The loop over the shards sets each status |
| ShardServer.ShardKV.ApplyInsertShard | src/shardkv/server.go:212-250 | Merges data and duplicate table in place |
| ShardServer.ShardKV.ApplyDeleteShard | src/shardkv/server.go:302-315 | Clears the shard |
| ShardServer.ShardKV.ApplyGCComplete | src/shardkv/server.go:319-333 | Back to Serving |
| ShardServer.ShardKV.HandleMsg | src/shardkv/server.go:627-703 | The server always has the state of the log up to lastApplied, which never goes back; old entries and old snapshots are passed over |
| ShardServer.ShardKV.ReadSnapshot | src/shardkv/server.go:355-382 | Replaces the whole state |
| ShardServer.ShardKV.FetchShard | src/shardkv/server.go:757-801 | Refuses before its time, else a copy of the data |
| ShardServer.ShardKV.IsReconfiguring | src/shardkv/server.go:849-858 | True exactly when some shard is on the move |
| ShardServer.ShardKV.Tasks | src/shardkv/server.go:722-736 | Collects the tasks for a status |
| ShardServer.TasksExact | src/shardkv/server.go:568-582 | A task for each shard with the status, once, and for no other |
| ShardServer.CopySeq | src/shardkv/server.go:237-242 | For each client the larger command number |
| Rebalance.Optimal | src/shardmaster/server.go:120-145 | No balanced assignment takes fewer shards from groups that stay |
| Rebalance.GiveKeepsGreedy | src/shardmaster/server.go:137-144 | Each single move keeps what optimality rests on |
| ShardConfigs.LeaveRemoves | src/shardmaster/server.go:417-423 | Of the configurations of every log: after a Leave exactly the groups that it does not name are there, with their servers, and no shard is on a group that has gone |
| ShardConfigs.JoinAdds | src/shardmaster/server.go:409-415 | After a Join every joined group is there with the joined servers, all others as they were, and all shards are on groups |
| ShardConfigs.MoveMovesOne | src/shardmaster/server.go:425-427 | After a Move the named shard is with the named group, and nothing else has changed |
| ShardConfigs.MakesConfigExactly | src/shardmaster/server.go:387-396 | An operation makes a configuration exactly when it is no Query and none of its client with its number or a later one has |
| ShardMaster.JoinGivesNothingToOld | src/shardmaster/server.go:409-415 | In the configurations that a log makes: a Join gives the groups of the configuration before it nothing new, unless that came from a Move and is uneven |
| ShardMaster.LeaveTakesNothingFromStaying | src/shardmaster/server.go:417-423 | In the configurations that a log makes: a Leave takes no shard from a group that stays, unless the configuration before it came from a Move and is uneven |
| RebalanceSteps.RebalanceOptimal | src/shardmaster/server.go:58-146 | All shards end with live groups, loads within one, and the fewest possible taken from groups that stay |
| RebalanceSteps.LevelOk | src/shardmaster/server.go:127-145 | Levelling ends within one of each other |
| RebalanceSteps.WeightDrops | src/shardmaster/server.go:127-145 | Each round makes a measure smaller, so the loop ends |
| ShardMaster.RebalanceShards | src/shardmaster/server.go:58-146 | In place, a function of the assignment and the sorted live groups alone |
| ShardMaster.GetMinMaxGid | src/shardmaster/server.go:100-112 | The first group with fewest and the first with most shards |
| ShardMaster.TakeStock | src/shardmaster/server.go:82-97 | Who has what, and what nobody has |
| ShardMaster.SortedGids | src/shardmaster/server.go:72-76 | The live groups in ascending order |
| ShardMaster.AscendingUnique | src/shardmaster/server.go:76-76 | There is one such list, whatever order the map has |
| ShardMaster.OneConfigEach | src/shardmaster/server.go:392-434 | Each configuration is made from the one before by one effective operation |
| ShardMaster.ApplyKeepsChain | src/shardmaster/server.go:394-431 | Configurations are numbered without gaps and never changed |
| ShardMaster.AtMostOnce | src/shardmaster/server.go:386-389 | No command of a client takes effect twice |
| ShardMaster.JoinLeaveConfigs | src/shardmaster/server.go:408-423 | What a Join or Leave makes is balanced, on live groups and optimal, or without groups all unassigned |
| ShardMaster.Server.ApplyOp | src/shardmaster/server.go:382-438 | One turn of the applier in place; which groups the new configuration has is in ShardConfigs |
| ShardMaster.Server.Lookup | src/shardmaster/server.go:340-345 | The configuration with that number, else the latest |
| ShardChain.MasterMakesChain | src/shardmaster/server.go:394-431 | Every log of the master makes a chain that the groups can follow |
| ShardChain.SteadyLogIsClean | src/shardmaster/server.go:408-428 | If no operation removes the last group, ownership is exclusive under that chain |
| KvRaft.ExactlyOnce | src/kvraft/server.go:269-285 | In an orderly log the store is the fold of the first occurrence of each write |
| KvRaft.OperationMeans | src/kvraft/server.go:277-283 | A new write does to the store what a put or an append is for and is remembered; repeated writes and reads do nothing |
| KvRaft.StoreHolds | src/kvraft/server.go:277-283 | In an orderly log each key has the value of the last new put on it followed by what later new appends added |
| KvRaft.KeysOfLog | src/kvraft/server.go:277-283 | If a number always means one write, a key is in the store exactly when some write in the log names it |
| KvRaft.RetryLoopIsOrderly | src/kvraft/client.go:73-113 | Whatever requests are lost, repeated or late, the retry loop makes the log orderly |
| KvRaft.ServiceExactlyOnce | src/kvraft/server.go:184-235 | In every run the store is the fold of the first occurrences; each key has the value of the last put on it among them followed by the later appends, and is there exactly when some write in the log names it; a write has exactly one place among them if and only if the table has reached its number, and every acknowledged write has one |
| KvRaft.AppliedOnce | src/kvraft/server.go:278-285 | A write is in the log if and only if it has exactly one place among the writes that the store is built from |
| KvRaft.SnapshotReplay | src/kvraft/server.go:62-97 | The state at any index followed by the rest of the log is the state at the end |
| KvRaft.Recover | src/kvraft/server.go:62-97 | A server started from the snapshot that another made, and handed the rest of the log, has the store and table of one that applied everything |
| KvRaft.StreamFollowsLog | src/kvraft/server.go:269-308 | As long as each command is the one after the position, the state is that of the log at the position, through any snapshots; a command that follows a late snapshot is not such a one, and RaftHandover says exactly when that happens |
| KvRaft.KVServer.constructor | src/kvraft/server.go:336-381 | Starts from the saved snapshot, or empty |
| KvRaft.KVServer.Apply | src/kvraft/server.go:269-308 | One turn of the apply loop on any message, whatever its index: writes are applied unless they are duplicates, a snapshot replaces everything, and a snapshot is made when the log is too long; what a write does is OperationMeans |
| KvRaft.KVServer.ApplyLoop | src/kvraft/server.go:255-323 | The loop computes what the messages do one after the other, and each snapshot that it makes is the state right after its command |
| KvRaft.KVServer.MakeSnapshot | src/kvraft/server.go:62-72 | The store and the table |
| KvRaft.KVServer.AlreadyDone | src/kvraft/server.go:185-190 | The duplicate check before a write is proposed |
| KvRaft.KVServer.ReadSnapshot | src/kvraft/server.go:74-97 | Replaces store and table |

## Left out

- Network and serialization (`src/labrpc`, `src/labgob`, gob, the byte layout of `Persister`): packets are a set, the disk is a record.
- Timers, sleeps, wait groups, contexts and condition variables: a timeout is an event that may happen at any time. Nothing is claimed about liveness.
- A crash in the middle of a handler, between its two persists: a handler is one step.
- Delivery of an installed snapshot later than commands applied after it: the background send (src/raft/AppendEntries.go:216-218) does not order them; the model hands over in handler order.
- Notification channels and RPC reply timing of the services; `Get` results of the sharded store, whose clients send no ids (src/shardkv/client.go:83-91); whether OK implies applied for the late check at src/shardkv/server.go:531-537.
- Where the servers of a group are (`Config.Groups` in the sharded store): a request to a group reaches it, or is lost.
- How the master's configurations become known: the groups' chain is fixed, and a ticker may or may not see the next one yet.
- `checkParallel`'s timeout, kill flag and goroutines: it is a loop over the partitions. Over no partition at all it would wait for ever, so there is at least one.
- Operations that return no later than they are called on the `makeEntries` route: the sort may put the return first.
- KvRaft.StreamFollowsLog: says nothing of a command that the plain service takes after a late snapshot, because the state then need not be that of any index of the log; `RaftHandover` says exactly when it comes to that.
- Sorting the recorded linearizations by length and dropping repeated ones before they are replayed: the replay goes through them by operation.
- The HTML of `src/porcupine/visualization.go`, except the replay of recorded linearizations.
- `one_log.Committed`, `one_log.Index`, `RealServer`, `Changed` and other debugging fields.
- `src/raft copy`, `src/raft-2-finished`, `src/kvraft_1`, `src/mr`, `src/main`, `src/mrapps` and the test harnesses.
