/** The Raft object itself: its methods update fields in place under the lock, with the loops of the original.
    Each is proved to do to `State()` exactly what the handler function of RaftHandlers says. */
module RaftServer {
  import opened RaftEntries
  import opened RaftHandlers

  class Raft {
    const me: int
    const peers: nat
    var currentTerm: int
    var votedFor: int
    var role: Role
    var logs: seq<Entry>
    var commitIndex: int
    var lastApplied: int
    var nextIndex: seq<int>
    var matchIndex: seq<int>
    var lastIncludedIndex: int
    var lastIncludedTerm: int
    var lastIncludedPublicIndex: int
    var votes: set<int>
    var disk: Persisted

    ghost function State(): Server
      reads this
    {
      Server(me, peers, currentTerm, votedFor, role, logs, commitIndex, lastApplied, nextIndex, matchIndex,
             lastIncludedIndex, lastIncludedTerm, lastIncludedPublicIndex, votes, disk)
    }

    /** Make: initialise, read back what an earlier instance persisted, persist. */
    constructor (me: int, peers: nat, saved: Option<Persisted>)
      ensures this.me == me && this.peers == peers
      ensures State() == if saved.None? then Boot(me, peers)
                         else Restart(Boot(me, peers).(disk := saved.value))
    {
      this.me, this.peers := me, peers;
      currentTerm, votedFor, role := 1, -1, Follower;
      logs := [SENTINEL];
      commitIndex, lastApplied := -1, -1;
      nextIndex, matchIndex := Zeros(peers), Zeros(peers);
      lastIncludedIndex, lastIncludedTerm, lastIncludedPublicIndex := 0, 0, 0;
      votes := {};
      disk := if saved.None? then Persisted(1, -1, [SENTINEL], 0, 0, 0, []) else saved.value;
      new;
      if saved.Some? { ReadPersist(saved.value); }
      PersistState();
    }

    method ReadPersist(data: Persisted)
      modifies this
      ensures State() == old(State()).(
                currentTerm := data.currentTerm, votedFor := data.votedFor, logs := data.logs,
                lastIncludedIndex := data.lastIncludedIndex, lastIncludedTerm := data.lastIncludedTerm,
                lastIncludedPublicIndex := data.lastIncludedPublicIndex,
                commitIndex := data.lastIncludedIndex, lastApplied := data.lastIncludedIndex)
    {
      currentTerm, votedFor, logs := data.currentTerm, data.votedFor, data.logs;
      lastIncludedIndex, lastIncludedTerm := data.lastIncludedIndex, data.lastIncludedTerm;
      lastIncludedPublicIndex := data.lastIncludedPublicIndex;
      commitIndex, lastApplied := lastIncludedIndex, lastIncludedIndex;
    }

    method PersistState()
      modifies this`disk
      ensures State() == Persist(old(State()))
    {
      PersistWithSnapshot(disk.snapshot);
    }

    method PersistWithSnapshot(snapshot: seq<Command>)
      modifies this`disk
      ensures State() == PersistWith(old(State()), snapshot)
    {
      disk := Persisted(currentTerm, votedFor, logs, lastIncludedIndex, lastIncludedTerm, lastIncludedPublicIndex, snapshot);
    }

    function LastLogIndex(): (i: int)
      reads this
      ensures i == State().LastLogIndex()
    {
      lastIncludedIndex + |logs| - 1
    }

    function TermAt(index: int): (t: int)
      requires index == lastIncludedIndex || 0 <= index - lastIncludedIndex < |logs|
      reads this
      ensures t == State().TermAt(index)
    {
      if index == lastIncludedIndex then lastIncludedTerm else logs[index - lastIncludedIndex].term
    }

    // -------------------------------------------------------------------------------------------
    // Public and real indices
    // -------------------------------------------------------------------------------------------

    method RealToPublicIndex(index: int) returns (public: int)
      requires |logs| >= 1
      ensures public == RealToPublic(State(), index)
    {
      public := lastIncludedPublicIndex;
      var offset := 1;
      while offset < |logs|
        invariant 1 <= offset <= |logs|
        invariant public == lastIncludedPublicIndex + |Commands(logs[1..offset])|
        invariant !(1 <= index - lastIncludedIndex < offset)
      {
        assert logs[1..offset + 1][..|logs[1..offset + 1]| - 1] == logs[1..offset];
        if logs[offset].cmd.Some? { public := public + 1; }
        if lastIncludedIndex + offset == index { return; }
        offset := offset + 1;
      }
      assert logs[1..offset] == logs[1..];
    }

    method PublicToRealIndex(publicIndex: int) returns (found: Option<int>)
      requires |logs| >= 1
      ensures found == PublicToReal(State(), publicIndex)
    {
      if publicIndex <= lastIncludedPublicIndex {
        if publicIndex == lastIncludedPublicIndex { return Some(lastIncludedIndex); }
        return None;
      }
      var public, offset := lastIncludedPublicIndex, 1;
      while offset < |logs|
        invariant 1 <= offset <= |logs| && public < publicIndex
        invariant FindCommand(logs, 1, publicIndex - lastIncludedPublicIndex) == FindCommand(logs, offset, publicIndex - public)
      {
        if logs[offset].cmd.Some? {
          public := public + 1;
          if public == publicIndex { return Some(lastIncludedIndex + offset); }
        }
        offset := offset + 1;
      }
      return None;
    }

    method TakeSnapshot(index: int, snapshot: seq<Command>)
      requires |logs| >= 1
      modifies this
      ensures State() == Snapshot(old(State()), index, snapshot)
    {
      var found := PublicToRealIndex(index);
      if found.None? || found.value <= lastIncludedIndex { return; }
      var i := found.value;
      var term := TermAt(i);
      var newLog := [Entry(term, None)];
      if i < LastLogIndex() {
        newLog := newLog + logs[i - lastIncludedIndex + 1..];
      }
      assert newLog == Compact(State(), i, term);
      logs := newLog;
      lastIncludedIndex, lastIncludedTerm, lastIncludedPublicIndex := i, term, index;
      PersistWithSnapshot(snapshot);
    }

    method StartCommand(command: Command) returns (index: int, term: int, isLeader: bool)
      requires |logs| >= 1
      modifies this
      ensures (State(), index, term, isLeader) == Start(old(State()), command)
    {
      if role != Leader { return -1, -1, false; }
      index := LastLogIndex() + 1;
      term, isLeader := currentTerm, true;
      logs := logs + [Entry(term, Some(command))];
      index := RealToPublicIndex(index);
      PersistState();
    }

    // -------------------------------------------------------------------------------------------
    // Elections
    // -------------------------------------------------------------------------------------------

    method BeginElection()
      modifies this
      ensures State() == StartElection(old(State()))
    {
      role := Candidate;
      currentTerm := currentTerm + 1;
      votedFor := me;
      votes := {me};
      PersistState();
    }

    method OnRequestVote(args: RequestVoteArgs) returns (reply: RequestVoteReply)
      requires |logs| >= 1
      modifies this
      ensures (State(), reply) == RequestVote(old(State()), args)
    {
      var lastLogIndex := LastLogIndex();
      var lastLogTerm := TermAt(lastLogIndex);
      if currentTerm < args.term {
        role := Follower;
        currentTerm := args.term;
        var granted := true;
        if lastLogTerm > args.lastLogTerm || (lastLogTerm == args.lastLogTerm && lastLogIndex > args.lastLogIndex) {
          granted := false;
          votedFor := -1;
        } else {
          votedFor := args.candidateId;
        }
        reply := RequestVoteReply(currentTerm, granted);
        PersistState();
      } else if currentTerm == args.term {
        if votedFor == args.candidateId {
          role := Follower;
          PersistState();
          reply := RequestVoteReply(currentTerm, true);
        } else if votedFor == -1 {
          if lastLogTerm > args.lastLogTerm || (lastLogTerm == args.lastLogTerm && lastLogIndex >= args.lastLogIndex) {
            reply := RequestVoteReply(currentTerm, false);
          } else {
            votedFor := args.candidateId;
            reply := RequestVoteReply(currentTerm, true);
          }
          PersistState();
        } else {
          reply := RequestVoteReply(currentTerm, false);
        }
      } else {
        reply := RequestVoteReply(currentTerm, false);
      }
    }

    method OnRequestVoteReply(from: int, counted: bool, reply: RequestVoteReply)
      modifies this
      ensures State() == HandleRequestVoteReply(old(State()), from, counted, reply)
    {
      if !reply.voteGranted {
        if reply.term > currentTerm {
          currentTerm := reply.term;
          role := Follower;
          votedFor := -1;
          PersistState();
        }
      } else if counted {
        votes := votes + {from};
      }
    }

    method WinElection()
      requires |logs| >= 1 && |nextIndex| == |matchIndex| == peers
      modifies this
      ensures State() == BecomeLeader(old(State()))
    {
      role := Leader;
      logs := logs + [Entry(currentTerm, None)];
      PersistState();
      InitLeader();
    }

    method InitLeader()
      requires |nextIndex| == |matchIndex| == peers
      modifies this`nextIndex, this`matchIndex
      ensures nextIndex == Filled(peers, lastIncludedIndex + |logs|) && matchIndex == Filled(peers, lastIncludedIndex)
    {
      var lastLogIndex := lastIncludedIndex + |logs| - 1;
      for i := 0 to peers
        invariant |nextIndex| == |matchIndex| == peers
        invariant forall j :: 0 <= j < i ==> nextIndex[j] == lastLogIndex + 1 && matchIndex[j] == lastIncludedIndex
      {
        nextIndex := nextIndex[i := lastLogIndex + 1];
        matchIndex := matchIndex[i := lastIncludedIndex];
      }
    }

    // -------------------------------------------------------------------------------------------
    // Log replication
    // -------------------------------------------------------------------------------------------

    method AppendArgs(peer: int) returns (args: AppendEntriesArgs)
      requires 0 <= peer < |nextIndex| && lastIncludedIndex < nextIndex[peer] <= LastLogIndex() + 1
      ensures args == MakeAppendArgs(State(), peer)
    {
      var next := nextIndex[peer];
      var prev := next - 1;
      var entries := [];
      if next <= LastLogIndex() {
        entries := entries + logs[next - lastIncludedIndex..];
      }
      args := AppendEntriesArgs(currentTerm, me, prev, logs[prev - lastIncludedIndex].term, entries, commitIndex);
    }

    /** The append loop: skip what is present, cut at the first conflict, append the rest. */
    method MergeInto(prevLogIndex: int, entries: seq<Entry>)
      requires lastIncludedIndex <= prevLogIndex <= LastLogIndex()
      modifies this`logs
      ensures logs == MergeEntries(old(logs), prevLogIndex + 1 - lastIncludedIndex, entries)
    {
      var i := 0;
      while i < |entries|
        invariant 0 <= i <= |entries| && logs == old(logs)
        invariant MergeEntries(logs, prevLogIndex + 1 - lastIncludedIndex, entries)
               == MergeEntries(logs, prevLogIndex + 1 + i - lastIncludedIndex, entries[i..])
      {
        var offset := prevLogIndex + 1 + i - lastIncludedIndex;
        if offset < |logs| {
          if logs[offset].term != entries[i].term {
            logs := logs[..offset] + entries[i..];
            return;
          }
        } else {
          logs := logs + entries[i..];
          return;
        }
        assert entries[i..][1..] == entries[i + 1..];
        i := i + 1;
      }
    }

    /** The first index of the conflicting term, found by walking back from the previous entry. */
    method FirstOfTerm(prevLogIndex: int, term: int) returns (index: int)
      requires lastIncludedIndex <= prevLogIndex <= LastLogIndex()
      ensures index == lastIncludedIndex + TermStart(logs, prevLogIndex - lastIncludedIndex, term)
    {
      var i := prevLogIndex;
      while i >= lastIncludedIndex && logs[i - lastIncludedIndex].term == term
        invariant lastIncludedIndex - 1 <= i <= prevLogIndex
        invariant TermStart(logs, prevLogIndex - lastIncludedIndex, term) == TermStart(logs, i - lastIncludedIndex, term)
      {
        i := i - 1;
      }
      index := i + 1;
    }

    /** What a server that follows the caller does with the call. */
    method FollowEntries(args: AppendEntriesArgs) returns (reply: AppendEntriesReply)
      requires |logs| >= 1
      modifies this
      ensures (State(), reply) == if HasPrevious(old(State()), args)
                                  then (TakeEntries(old(State()), args), AppendEntriesReply(old(currentTerm), true, 0, 0))
                                  else (old(State()), ConflictReply(old(State()), args))
    {
      var lastLogIndex := LastLogIndex();
      if args.prevLogIndex < lastIncludedIndex {
        reply := AppendEntriesReply(currentTerm, false, lastIncludedIndex + 1, -1);
      } else if args.prevLogIndex > lastLogIndex {
        reply := AppendEntriesReply(currentTerm, false, lastLogIndex + 1, -1);
      } else if logs[args.prevLogIndex - lastIncludedIndex].term != args.prevLogTerm {
        var conflictTerm := logs[args.prevLogIndex - lastIncludedIndex].term;
        var conflictIndex := 0;
        if conflictTerm < args.prevLogTerm {
          conflictIndex := args.prevLogIndex - 1;
        } else if conflictTerm > args.prevLogTerm {
          conflictIndex := FirstOfTerm(args.prevLogIndex, conflictTerm);
        }
        reply := AppendEntriesReply(currentTerm, false, conflictIndex, conflictTerm);
      } else {
        reply := AppendEntriesReply(currentTerm, true, 0, 0);
        if args.entries != [] {
          MergeInto(args.prevLogIndex, args.entries);
          PersistState();
        }
        if args.leaderCommit > commitIndex {
          commitIndex := Min(args.leaderCommit, LastLogIndex());
        }
      }
    }

    method OnAppendEntries(args: AppendEntriesArgs) returns (reply: AppendEntriesReply)
      requires |logs| >= 1
      modifies this
      ensures (State(), reply) == AppendEntries(old(State()), args)
    {
      if currentTerm > args.term { return AppendEntriesReply(currentTerm, false, 0, 0); }
      if currentTerm < args.term {
        votedFor := -1;
        PersistState();
      }
      if role == Leader {
        role := Follower;
        if args.term > currentTerm {
          currentTerm := args.term;
          PersistState();
        }
        return AppendEntriesReply(currentTerm, false, args.prevLogIndex + 1, 0);
      }
      role := Follower;
      currentTerm := args.term;
      PersistState();
      reply := FollowEntries(args);
    }

    /** Walks back from pos to the last entry of a term, not beyond the snapshot. */
    method SearchTerm(pos: int, term: int) returns (found: int)
      requires pos <= LastLogIndex()
      ensures found == LastOfTerm(State(), pos, term)
    {
      found := pos;
      while found > lastIncludedIndex && logs[found - lastIncludedIndex].term != term
        invariant found <= pos && LastOfTerm(State(), pos, term) == LastOfTerm(State(), found, term)
        decreases found - lastIncludedIndex
      {
        found := found - 1;
      }
    }

    method OnAppendEntriesReply(peer: int, args: AppendEntriesArgs, reply: AppendEntriesReply)
      requires 0 <= peer < |nextIndex| && |matchIndex| == |nextIndex|
      requires args.term == currentTerm && role == Leader ==> args.prevLogIndex <= LastLogIndex()
      modifies this
      ensures State() == HandleAppendEntriesReply(old(State()), peer, args, reply)
    {
      if args.term != currentTerm { return; }
      if !reply.success && role == Leader {
        if reply.term > currentTerm {
          currentTerm := reply.term;
          role := Follower;
          votedFor := -1;
          PersistState();
        } else {
          if reply.conflictTerm == -1 {
            nextIndex := nextIndex[peer := reply.conflictIndex];
          } else if reply.conflictTerm > args.prevLogTerm {
            nextIndex := nextIndex[peer := reply.conflictIndex];
          } else if reply.conflictTerm < args.prevLogTerm {
            var pos := SearchTerm(args.prevLogIndex, reply.conflictTerm);
            if pos == lastIncludedIndex && lastIncludedTerm != reply.conflictTerm {
              nextIndex := nextIndex[peer := reply.conflictIndex];
            } else {
              nextIndex := nextIndex[peer := pos + 1];
            }
          }
          if nextIndex[peer] < lastIncludedIndex + 1 {
            nextIndex := nextIndex[peer := lastIncludedIndex];
          }
          assert nextIndex == old(nextIndex)[peer := BackedUp(old(State()), peer, args, reply)];
        }
      } else if reply.success && role == Leader {
        matchIndex := matchIndex[peer := args.prevLogIndex + |args.entries|];
        nextIndex := nextIndex[peer := args.prevLogIndex + |args.entries| + 1];
        PersistState();
      }
    }

    // -------------------------------------------------------------------------------------------
    // Commitment and delivery
    // -------------------------------------------------------------------------------------------

    /** Counts the servers that hold entry n. */
    method CountHolders(n: int) returns (count: nat)
      requires |matchIndex| == peers
      ensures count == |Holders(State(), n)|
    {
      count := 0;
      ghost var seen: set<int> := {};
      for i := 0 to peers
        invariant seen == set j | j in Range(i) && (j == me || matchIndex[j] >= n)
        invariant count == |seen|
      {
        assert Range(i + 1) == Range(i) + {i};
        if i == me || matchIndex[i] >= n {
          count := count + 1;
          seen := seen + {i};
        }
      }
      assert seen == Holders(State(), n);
    }

    method AdvanceCommit()
      requires |matchIndex| == peers
      modifies this`commitIndex
      ensures State() == CheckCommit(old(State()))
    {
      if role != Leader { return; }
      var n := LastLogIndex();
      while n > commitIndex
        invariant n <= LastLogIndex() && State() == old(State())
        invariant FindCommit(State(), LastLogIndex()) == FindCommit(State(), n)
      {
        if n <= lastIncludedIndex { return; }
        if logs[n - lastIncludedIndex].term != currentTerm { return; }
        var count := CountHolders(n);
        if count * 2 > peers {
          commitIndex := n;
          return;
        }
        n := n - 1;
      }
    }

    method ApplyOne() returns (msg: Option<ApplyMsg>)
      requires lastApplied < commitIndex && 0 <= lastApplied + 1 - lastIncludedIndex < |logs|
      modifies this
      ensures (State(), msg) == ApplyNext(old(State()))
    {
      lastApplied := lastApplied + 1;
      PersistState();
      var cmd := logs[lastApplied - lastIncludedIndex].cmd;
      if cmd.None? { return None; }
      var index := RealToPublicIndex(lastApplied);
      return Some(CommandMsg(index, cmd.value));
    }

    // -------------------------------------------------------------------------------------------
    // Installing a leader's snapshot
    // -------------------------------------------------------------------------------------------

    /** Keeps the tail of the log if the boundary agrees with the snapshot, else drops the log. */
    method CutUnder(args: InstallSnapshotArgs)
      requires lastIncludedIndex < args.lastIncludedIndex
      modifies this`logs
      ensures logs == LogUnderSnapshot(old(State()), args)
    {
      var sentinel := [Entry(args.lastIncludedTerm, None)];
      if args.lastIncludedIndex <= LastLogIndex() {
        var offset := args.lastIncludedIndex - lastIncludedIndex;
        if logs[offset].term == args.lastIncludedTerm {
          logs := sentinel + logs[offset + 1..];
        } else {
          logs := sentinel;
        }
      } else {
        logs := sentinel;
      }
    }

    /** Takes a snapshot ahead of the server's own; commitIndex and lastApplied never move back. */
    method Adopt(args: InstallSnapshotArgs)
      requires lastIncludedIndex < args.lastIncludedIndex
      modifies this
      ensures State() == PersistWith(old(State()).(
                logs := LogUnderSnapshot(old(State()), args),
                lastIncludedIndex := args.lastIncludedIndex, lastIncludedTerm := args.lastIncludedTerm,
                lastIncludedPublicIndex := args.lastIncludedPublicIndex,
                commitIndex := Max(old(commitIndex), args.lastIncludedIndex),
                lastApplied := Max(old(lastApplied), args.lastIncludedIndex)), args.data)
    {
      CutUnder(args);
      lastIncludedIndex, lastIncludedTerm := args.lastIncludedIndex, args.lastIncludedTerm;
      lastIncludedPublicIndex := args.lastIncludedPublicIndex;
      if commitIndex < lastIncludedIndex { commitIndex := lastIncludedIndex; }
      if lastApplied < lastIncludedIndex { lastApplied := lastIncludedIndex; }
      PersistWithSnapshot(args.data);
    }

    method OnInstallSnapshot(args: InstallSnapshotArgs) returns (term: int, msg: Option<ApplyMsg>)
      modifies this
      ensures (State(), term, msg) == InstallSnapshot(old(State()), args)
    {
      term, msg := currentTerm, None;
      if args.term < currentTerm { return; }
      if args.term > currentTerm {
        currentTerm := args.term;
        votedFor := -1;
        role := Follower;
      }
      term := currentTerm;
      if args.lastIncludedIndex <= lastIncludedIndex {
        PersistState();
        return;
      }
      Adopt(args);
      msg := Some(SnapshotMsg(args.lastIncludedPublicIndex, args.data));
    }

    method OnInstallSnapshotReply(peer: int, args: InstallSnapshotArgs, replyTerm: int)
      requires 0 <= peer < |nextIndex| && |matchIndex| == |nextIndex|
      modifies this
      ensures State() == HandleInstallSnapshotReply(old(State()), peer, args, replyTerm)
    {
      if args.term != currentTerm || role != Leader { return; }
      if replyTerm > currentTerm {
        currentTerm := replyTerm;
        role := Follower;
        votedFor := -1;
        PersistState();
        return;
      }
      matchIndex := matchIndex[peer := args.lastIncludedIndex];
      nextIndex := nextIndex[peer := args.lastIncludedIndex + 1];
    }
  }
}
