/** One Raft server as a value, and what each locked handler does to it.
    `logs[0]` is the sentinel of the compacted log: real index i is stored at `logs[i - lastIncludedIndex]`.
    A `requires` here names the slice and index expressions that would panic in the original;
    RaftSafety proves that no reachable call violates one. */
module RaftHandlers {
  import opened RaftEntries

  datatype Role = Follower | Candidate | Leader

  /** What the persister holds. A snapshot stands for the commands whose effect it contains. */
  datatype Persisted = Persisted(
    currentTerm: int, votedFor: int, logs: seq<Entry>,
    lastIncludedIndex: int, lastIncludedTerm: int, lastIncludedPublicIndex: int,
    snapshot: seq<Command>)

  /** `votes` are the peers whose granted replies the running election has counted, itself included. */
  datatype Server = Server(
    me: int, peers: nat,
    currentTerm: int, votedFor: int, role: Role, logs: seq<Entry>,
    commitIndex: int, lastApplied: int, nextIndex: seq<int>, matchIndex: seq<int>,
    lastIncludedIndex: int, lastIncludedTerm: int, lastIncludedPublicIndex: int,
    votes: set<int>, disk: Persisted)
  {
    function LastLogIndex(): int { lastIncludedIndex + |logs| - 1 }

    function TermAt(index: int): int
      requires index == lastIncludedIndex || 0 <= index - lastIncludedIndex < |logs|
    {
      if index == lastIncludedIndex then lastIncludedTerm else logs[index - lastIncludedIndex].term
    }

    ghost predicate Shaped()
    {
      && |logs| >= 1 && |nextIndex| == peers && |matchIndex| == peers && 0 <= me < peers
      && lastIncludedIndex >= 0
    }
  }

  datatype RequestVoteArgs = RequestVoteArgs(term: int, candidateId: int, lastLogIndex: int, lastLogTerm: int)
  datatype RequestVoteReply = RequestVoteReply(term: int, voteGranted: bool)
  datatype AppendEntriesArgs = AppendEntriesArgs(
    term: int, leaderId: int, prevLogIndex: int, prevLogTerm: int, entries: seq<Entry>, leaderCommit: int)
  datatype AppendEntriesReply = AppendEntriesReply(term: int, success: bool, conflictIndex: int, conflictTerm: int)
  datatype InstallSnapshotArgs = InstallSnapshotArgs(
    term: int, leaderId: int, lastIncludedIndex: int, lastIncludedTerm: int, lastIncludedPublicIndex: int,
    data: seq<Command>)

  /** What a server hands to its service. */
  datatype ApplyMsg = CommandMsg(index: int, command: Command) | SnapshotMsg(index: int, data: seq<Command>)

  // ---------------------------------------------------------------------------------------------
  // Persistence, start and restart
  // ---------------------------------------------------------------------------------------------

  function PersistWith(s: Server, snapshot: seq<Command>): Server
  {
    s.(disk := Persisted(s.currentTerm, s.votedFor, s.logs, s.lastIncludedIndex, s.lastIncludedTerm,
                         s.lastIncludedPublicIndex, snapshot))
  }

  function Persist(s: Server): Server
  {
    PersistWith(s, s.disk.snapshot)
  }

  function Filled(n: nat, v: int): (z: seq<int>)
    ensures |z| == n && forall i :: 0 <= i < n ==> z[i] == v
  {
    seq(n, i => v)
  }

  function Zeros(n: nat): seq<int>
  {
    Filled(n, 0)
  }

  /** A server made on an empty persister. */
  function Boot(me: int, peers: nat): Server
  {
    Server(me, peers, 1, -1, Follower, [SENTINEL], -1, -1, Zeros(peers), Zeros(peers), 0, 0, 0, {},
           Persisted(1, -1, [SENTINEL], 0, 0, 0, []))
  }

  /** A crash keeps only the disk; the new instance reads it back. */
  function Restart(s: Server): Server
  {
    var d := s.disk;
    Server(s.me, s.peers, d.currentTerm, d.votedFor, Follower, d.logs, d.lastIncludedIndex, d.lastIncludedIndex,
           Zeros(s.peers), Zeros(s.peers), d.lastIncludedIndex, d.lastIncludedTerm, d.lastIncludedPublicIndex, {}, d)
  }

  // ---------------------------------------------------------------------------------------------
  // Public and real indices
  // ---------------------------------------------------------------------------------------------

  /** The public index of a real index beyond the snapshot: commands only, no-ops skipped. */
  function RealToPublic(s: Server, index: int): int
    requires |s.logs| >= 1
  {
    var offset := index - s.lastIncludedIndex;
    s.lastIncludedPublicIndex + |Commands(if 1 <= offset < |s.logs| then s.logs[1..offset + 1] else s.logs[1..])|
  }

  /** Offset of the k-th command (k >= 1) at or after `from`, or None. */
  function FindCommand(logs: seq<Entry>, from: nat, k: int): (r: Option<nat>)
    ensures r.Some? ==> from <= r.value < |logs| && logs[r.value].cmd.Some?
    decreases |logs| - from
  {
    if from >= |logs| then None
    else if logs[from].cmd.Some? then (if k == 1 then Some(from) else FindCommand(logs, from + 1, k - 1))
    else FindCommand(logs, from + 1, k)
  }

  function PublicToReal(s: Server, public: int): (r: Option<int>)
    requires |s.logs| >= 1
    ensures r.Some? ==> s.lastIncludedIndex <= r.value <= s.LastLogIndex()
  {
    if public < s.lastIncludedPublicIndex then None
    else if public == s.lastIncludedPublicIndex then Some(s.lastIncludedIndex)
    else
      match FindCommand(s.logs, 1, public - s.lastIncludedPublicIndex)
      case Some(offset) => Some(s.lastIncludedIndex + offset)
      case None => None
  }

  // ---------------------------------------------------------------------------------------------
  // Elections
  // ---------------------------------------------------------------------------------------------

  /** The election timer fires on a server that is not the leader. */
  function StartElection(s: Server): Server
  {
    Persist(s.(role := Candidate, currentTerm := s.currentTerm + 1, votedFor := s.me, votes := {s.me}))
  }

  function MakeVoteArgs(s: Server): RequestVoteArgs
    requires |s.logs| >= 1
  {
    RequestVoteArgs(s.currentTerm, s.me, s.LastLogIndex(), s.TermAt(s.LastLogIndex()))
  }

  function RequestVote(s: Server, args: RequestVoteArgs): (Server, RequestVoteReply)
    requires |s.logs| >= 1
  {
    var lastLogIndex := s.LastLogIndex();
    var lastLogTerm := s.TermAt(lastLogIndex);
    if s.currentTerm < args.term then
      var refuse := lastLogTerm > args.lastLogTerm
                    || (lastLogTerm == args.lastLogTerm && lastLogIndex > args.lastLogIndex);
      (Persist(s.(role := Follower, currentTerm := args.term, votedFor := if refuse then -1 else args.candidateId)),
       RequestVoteReply(args.term, !refuse))
    else if s.currentTerm == args.term then
      if s.votedFor == args.candidateId then
        (Persist(s.(role := Follower)), RequestVoteReply(s.currentTerm, true))
      else if s.votedFor == -1 then
        // In this branch an equally long log refuses too.
        if lastLogTerm > args.lastLogTerm || (lastLogTerm == args.lastLogTerm && lastLogIndex >= args.lastLogIndex) then
          (Persist(s), RequestVoteReply(s.currentTerm, false))
        else
          (Persist(s.(votedFor := args.candidateId)), RequestVoteReply(s.currentTerm, true))
      else
        (s, RequestVoteReply(s.currentTerm, false))
    else
      (s, RequestVoteReply(s.currentTerm, false))
  }

  /** A server leaves its role for a higher term it has seen in a reply. */
  function StepDown(s: Server, term: int): Server
  {
    Persist(s.(currentTerm := term, role := Follower, votedFor := -1))
  }

  /** `counted`: the reply belongs to the election that is still running. */
  function HandleRequestVoteReply(s: Server, from: int, counted: bool, reply: RequestVoteReply): Server
  {
    if !reply.voteGranted then
      if reply.term > s.currentTerm then StepDown(s, reply.term) else s
    else if counted then s.(votes := s.votes + {from})
    else s
  }

  /** Winning the vote, appending the no-op and initLeader, as one step. */
  function BecomeLeader(s: Server): Server
    requires |s.logs| >= 1
  {
    var logs := s.logs + [Entry(s.currentTerm, None)];
    Persist(s.(role := Leader, logs := logs,
               nextIndex := Filled(s.peers, s.lastIncludedIndex + |logs|),
               matchIndex := Filled(s.peers, s.lastIncludedIndex)))
  }

  // ---------------------------------------------------------------------------------------------
  // Log replication
  // ---------------------------------------------------------------------------------------------

  function Start(s: Server, command: Command): (Server, int, int, bool)
    requires |s.logs| >= 1
  {
    if s.role != Leader then (s, -1, -1, false) else
    var s' := Persist(s.(logs := s.logs + [Entry(s.currentTerm, Some(command))]));
    (s', RealToPublic(s', s'.LastLogIndex()), s.currentTerm, true)
  }

  /** The arguments of the AppendEntries call for a peer that the log still reaches. */
  function MakeAppendArgs(s: Server, peer: int): AppendEntriesArgs
    requires 0 <= peer < |s.nextIndex| && s.lastIncludedIndex < s.nextIndex[peer] <= s.LastLogIndex() + 1
  {
    var next := s.nextIndex[peer];
    AppendEntriesArgs(s.currentTerm, s.me, next - 1, s.logs[next - 1 - s.lastIncludedIndex].term,
                      if next <= s.LastLogIndex() then s.logs[next - s.lastIncludedIndex..] else [], s.commitIndex)
  }

  function MakeSnapshotArgs(s: Server): InstallSnapshotArgs
  {
    InstallSnapshotArgs(s.currentTerm, s.me, s.lastIncludedIndex, s.lastIncludedTerm, s.lastIncludedPublicIndex,
                        s.disk.snapshot)
  }

  /** Conflict-only truncation: entries already present are skipped, the rest replaces the log from there. */
  function MergeEntries(logs: seq<Entry>, offset: nat, entries: seq<Entry>): seq<Entry>
    decreases |entries|
  {
    if |entries| == 0 then logs
    else if offset < |logs| then
      if logs[offset].term != entries[0].term then logs[..offset] + entries
      else MergeEntries(logs, offset + 1, entries[1..])
    else logs + entries
  }

  /** The offset after the last one at or below `offset` whose term differs from `term`. */
  function TermStart(logs: seq<Entry>, offset: int, term: int): (r: int)
    requires offset < |logs|
    ensures r <= offset + 1
  {
    if offset < 0 || logs[offset].term != term then offset + 1 else TermStart(logs, offset - 1, term)
  }

  /** The reply to a call whose previous entry is not in the log. */
  function ConflictReply(s: Server, args: AppendEntriesArgs): AppendEntriesReply
    requires |s.logs| >= 1
  {
    var prev := args.prevLogIndex;
    if prev < s.lastIncludedIndex then AppendEntriesReply(s.currentTerm, false, s.lastIncludedIndex + 1, -1)
    else if prev > s.LastLogIndex() then AppendEntriesReply(s.currentTerm, false, s.LastLogIndex() + 1, -1)
    else
      var conflictTerm := s.logs[prev - s.lastIncludedIndex].term;
      var conflictIndex :=
        if conflictTerm < args.prevLogTerm then prev - 1
        else if conflictTerm > args.prevLogTerm then
          s.lastIncludedIndex + TermStart(s.logs, prev - s.lastIncludedIndex, conflictTerm)
        else 0;
      AppendEntriesReply(s.currentTerm, false, conflictIndex, conflictTerm)
  }

  predicate HasPrevious(s: Server, args: AppendEntriesArgs)
  {
    && s.lastIncludedIndex <= args.prevLogIndex <= s.LastLogIndex()
    && s.logs[args.prevLogIndex - s.lastIncludedIndex].term == args.prevLogTerm
  }

  function Min(a: int, b: int): int { if a < b then a else b }

  /** A follower in the leader's term takes the entries and the commit index. */
  function TakeEntries(s: Server, args: AppendEntriesArgs): Server
    requires HasPrevious(s, args)
  {
    var s1 := if args.entries == [] then s
              else Persist(s.(logs := MergeEntries(s.logs, args.prevLogIndex + 1 - s.lastIncludedIndex, args.entries)));
    if args.leaderCommit > s1.commitIndex then s1.(commitIndex := Min(args.leaderCommit, s1.LastLogIndex())) else s1
  }

  function AppendEntries(s: Server, args: AppendEntriesArgs): (Server, AppendEntriesReply)
    requires |s.logs| >= 1
  {
    if s.currentTerm <= args.term then
      var s1 := if s.currentTerm < args.term then Persist(s.(votedFor := -1)) else s;
      if s1.role == Leader then
        var s2 := s1.(role := Follower);
        var s3 := if args.term > s2.currentTerm then Persist(s2.(currentTerm := args.term)) else s2;
        (s3, AppendEntriesReply(s3.currentTerm, false, args.prevLogIndex + 1, 0))
      else
        var s2 := Persist(s1.(role := Follower, currentTerm := args.term));
        if HasPrevious(s2, args) then (TakeEntries(s2, args), AppendEntriesReply(s2.currentTerm, true, 0, 0))
        else (s2, ConflictReply(s2, args))
    else
      (s, AppendEntriesReply(s.currentTerm, false, 0, 0))
  }

  /** The largest position at most `pos` above the snapshot with the given term, else the snapshot's index
      (or `pos` itself when it is below the snapshot). */
  function LastOfTerm(s: Server, pos: int, term: int): (r: int)
    requires pos <= s.LastLogIndex()
    ensures r <= pos
    decreases pos - s.lastIncludedIndex
  {
    if pos > s.lastIncludedIndex && s.logs[pos - s.lastIncludedIndex].term != term then LastOfTerm(s, pos - 1, term)
    else pos
  }

  /** Where the leader resumes after a rejected call. */
  function BackedUp(s: Server, peer: int, args: AppendEntriesArgs, reply: AppendEntriesReply): int
    requires 0 <= peer < |s.nextIndex| && args.prevLogIndex <= s.LastLogIndex()
  {
    var next :=
      if reply.conflictTerm == -1 || reply.conflictTerm > args.prevLogTerm then reply.conflictIndex
      else if reply.conflictTerm < args.prevLogTerm then
        var pos := LastOfTerm(s, args.prevLogIndex, reply.conflictTerm);
        if pos == s.lastIncludedIndex && s.lastIncludedTerm != reply.conflictTerm then reply.conflictIndex
        else pos + 1
      else s.nextIndex[peer];
    if next < s.lastIncludedIndex + 1 then s.lastIncludedIndex else next
  }

  function HandleAppendEntriesReply(s: Server, peer: int, args: AppendEntriesArgs, reply: AppendEntriesReply): Server
    requires 0 <= peer < |s.nextIndex| && |s.matchIndex| == |s.nextIndex|
    requires args.term == s.currentTerm && s.role == Leader ==> args.prevLogIndex <= s.LastLogIndex()
  {
    if args.term != s.currentTerm || s.role != Leader then s
    else if !reply.success then
      if reply.term > s.currentTerm then StepDown(s, reply.term)
      else s.(nextIndex := s.nextIndex[peer := BackedUp(s, peer, args, reply)])
    else
      Persist(s.(matchIndex := s.matchIndex[peer := args.prevLogIndex + |args.entries|],
                 nextIndex := s.nextIndex[peer := args.prevLogIndex + |args.entries| + 1]))
  }

  // ---------------------------------------------------------------------------------------------
  // Commitment and delivery
  // ---------------------------------------------------------------------------------------------

  /** The peers that count as holding entry n: the leader, and those whose matchIndex reaches it. */
  function Holders(s: Server, n: int): (h: set<int>)
    requires |s.matchIndex| == s.peers
  {
    set i | i in Range(s.peers) && (i == s.me || s.matchIndex[i] >= n)
  }

  /** The new commit index when the search for it has come down to n. */
  function FindCommit(s: Server, n: int): int
    requires |s.matchIndex| == s.peers && n <= s.LastLogIndex()
    decreases n - s.commitIndex
  {
    if n <= s.commitIndex || n <= s.lastIncludedIndex then s.commitIndex
    else if s.logs[n - s.lastIncludedIndex].term != s.currentTerm then s.commitIndex
    else if |Holders(s, n)| * 2 > s.peers then n
    else FindCommit(s, n - 1)
  }

  function CheckCommit(s: Server): Server
    requires |s.matchIndex| == s.peers
  {
    if s.role != Leader then s else s.(commitIndex := FindCommit(s, s.LastLogIndex()))
  }

  /** Delivering the next committed entry: a command goes to the service, a no-op does not. */
  function ApplyNext(s: Server): (Server, Option<ApplyMsg>)
    requires s.lastApplied < s.commitIndex && 0 <= s.lastApplied + 1 - s.lastIncludedIndex < |s.logs|
  {
    var next := s.lastApplied + 1;
    var s' := Persist(s.(lastApplied := next));
    var cmd := s.logs[next - s.lastIncludedIndex].cmd;
    (s', if cmd.None? then None else Some(CommandMsg(RealToPublic(s', next), cmd.value)))
  }

  // ---------------------------------------------------------------------------------------------
  // Compaction
  // ---------------------------------------------------------------------------------------------

  /** The log with everything up to real index i folded into a sentinel of the given term. */
  function Compact(s: Server, i: int, term: int): seq<Entry>
    requires s.lastIncludedIndex <= i <= s.LastLogIndex()
  {
    [Entry(term, None)] + s.logs[i - s.lastIncludedIndex + 1..]
  }

  function Snapshot(s: Server, index: int, snapshot: seq<Command>): Server
    requires |s.logs| >= 1
  {
    match PublicToReal(s, index)
    case None => s
    case Some(i) =>
      if i <= s.lastIncludedIndex then s else
      var term := s.TermAt(i);
      PersistWith(s.(logs := Compact(s, i, term), lastIncludedIndex := i, lastIncludedTerm := term,
                     lastIncludedPublicIndex := index), snapshot)
  }

  /** The log a follower keeps under a snapshot: its tail if it agrees on the boundary, else nothing. */
  function LogUnderSnapshot(s: Server, args: InstallSnapshotArgs): seq<Entry>
    requires s.lastIncludedIndex < args.lastIncludedIndex
  {
    var offset := args.lastIncludedIndex - s.lastIncludedIndex;
    if args.lastIncludedIndex <= s.LastLogIndex() && s.logs[offset].term == args.lastIncludedTerm
    then Compact(s, args.lastIncludedIndex, args.lastIncludedTerm)
    else [Entry(args.lastIncludedTerm, None)]
  }

  function Max(a: int, b: int): int { if a < b then b else a }

  /** The last component is the snapshot handed to the service, if any; the middle one the reply's term. */
  function InstallSnapshot(s: Server, args: InstallSnapshotArgs): (Server, int, Option<ApplyMsg>)
  {
    if args.term < s.currentTerm then (s, s.currentTerm, None) else
    var s1 := if args.term > s.currentTerm
              then s.(currentTerm := args.term, votedFor := -1, role := Follower) else s;
    if args.lastIncludedIndex <= s1.lastIncludedIndex then (Persist(s1), s1.currentTerm, None)
    else
      var s2 := s1.(logs := LogUnderSnapshot(s1, args),
                    lastIncludedIndex := args.lastIncludedIndex, lastIncludedTerm := args.lastIncludedTerm,
                    lastIncludedPublicIndex := args.lastIncludedPublicIndex,
                    commitIndex := Max(s1.commitIndex, args.lastIncludedIndex),
                    lastApplied := Max(s1.lastApplied, args.lastIncludedIndex));
      (PersistWith(s2, args.data), s1.currentTerm, Some(SnapshotMsg(args.lastIncludedPublicIndex, args.data)))
  }

  function HandleInstallSnapshotReply(s: Server, peer: int, args: InstallSnapshotArgs, replyTerm: int): Server
    requires 0 <= peer < |s.nextIndex| && |s.matchIndex| == |s.nextIndex|
  {
    if args.term != s.currentTerm || s.role != Leader then s
    else if replyTerm > s.currentTerm then StepDown(s, replyTerm)
    else s.(matchIndex := s.matchIndex[peer := args.lastIncludedIndex],
            nextIndex := s.nextIndex[peer := args.lastIncludedIndex + 1])
  }
}
