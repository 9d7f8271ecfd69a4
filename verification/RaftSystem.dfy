/** A cluster: servers running the handlers, the services above them, and a network that loses, repeats
    and reorders. Packets are never removed, so each may be taken any number of times or never; calls carry
    their arguments along with the reply, as the caller's goroutine does. */
module RaftSystem {
  import opened RaftEntries
  import opened RaftHandlers

  datatype Packet =
    | VoteRequest(src: int, dst: int, vote: RequestVoteArgs)
    | VoteReply(src: int, dst: int, vote: RequestVoteArgs, voteReply: RequestVoteReply)
    | EntriesRequest(src: int, dst: int, entries: AppendEntriesArgs)
    | EntriesReply(src: int, dst: int, entries: AppendEntriesArgs, entriesReply: AppendEntriesReply)
    | SnapshotRequest(src: int, dst: int, snapshot: InstallSnapshotArgs)
    | SnapshotReply(src: int, dst: int, snapshot: InstallSnapshotArgs, term: int)

  /** A command a server handed to its service, with the CommandIndex it gave it. */
  datatype Delivery = Delivery(server: int, index: int, command: Command)

  /** `service[s]` are the commands whose effect the service of s contains, in order. */
  datatype System = System(servers: seq<Server>, net: set<Packet>, service: seq<seq<Command>>, delivered: set<Delivery>)

  /** Timers, crashes, client calls and packet arrivals, in any order. */
  datatype Event =
    | Timeout(s: int)
    | AskVote(s: int, peer: int)
    | OnVoteRequest(packet: Packet)
    | OnVoteReply(packet: Packet)
    | Win(s: int)
    | Client(s: int, command: Command)
    | SendTo(s: int, peer: int)
    | OnEntries(packet: Packet)
    | OnEntriesReply(packet: Packet)
    | OnSnapshot(packet: Packet)
    | OnSnapshotReply(packet: Packet)
    | CommitCheck(s: int)
    | Deliver(s: int)
    | TakeSnapshot(s: int, index: int)
    | Crash(s: int)

  function Initial(n: nat): System
  {
    System(seq(n, i => Boot(i, n)), {}, seq(n, i => []), {})
  }

  predicate IsServer(sys: System, s: int)
  {
    0 <= s < |sys.servers| && s < |sys.service|
  }

  /** What the environment may do next. */
  predicate Enabled(sys: System, e: Event)
  {
    match e
    case Timeout(s) => IsServer(sys, s) && sys.servers[s].role != Leader
    case AskVote(s, peer) => IsServer(sys, s) && IsServer(sys, peer) && peer != s
    case OnVoteRequest(p) => p in sys.net && p.VoteRequest? && IsServer(sys, p.dst)
    case OnVoteReply(p) => p in sys.net && p.VoteReply? && IsServer(sys, p.dst)
    case Win(s) =>
      IsServer(sys, s) && sys.servers[s].role == Candidate && 2 * |sys.servers[s].votes| > sys.servers[s].peers
    case Client(s, _) => IsServer(sys, s)
    case SendTo(s, peer) => IsServer(sys, s) && IsServer(sys, peer) && peer != s && sys.servers[s].role == Leader
    case OnEntries(p) => p in sys.net && p.EntriesRequest? && IsServer(sys, p.dst)
    case OnEntriesReply(p) => p in sys.net && p.EntriesReply? && IsServer(sys, p.dst)
    case OnSnapshot(p) => p in sys.net && p.SnapshotRequest? && IsServer(sys, p.dst)
    case OnSnapshotReply(p) => p in sys.net && p.SnapshotReply? && IsServer(sys, p.dst)
    case CommitCheck(s) => IsServer(sys, s)
    case Deliver(s) => IsServer(sys, s) && sys.servers[s].lastApplied < sys.servers[s].commitIndex
    case TakeSnapshot(s, index) => IsServer(sys, s) && 0 <= index <= |sys.service[s]|
    case Crash(s) => IsServer(sys, s)
  }

  /** The server at which an event happens. */
  function At(e: Event): int
  {
    match e
    case Timeout(s) => s
    case AskVote(s, _) => s
    case OnVoteRequest(p) => p.dst
    case OnVoteReply(p) => p.dst
    case Win(s) => s
    case Client(s, _) => s
    case SendTo(s, _) => s
    case OnEntries(p) => p.dst
    case OnEntriesReply(p) => p.dst
    case OnSnapshot(p) => p.dst
    case OnSnapshotReply(p) => p.dst
    case CommitCheck(s) => s
    case Deliver(s) => s
    case TakeSnapshot(s, _) => s
    case Crash(s) => s
  }

  /** The index and slice expressions that the code evaluates at this event are all in range. */
  predicate NoPanic(sys: System, e: Event)
    requires Enabled(sys, e)
  {
    var sv := sys.servers[At(e)];
    && |sv.logs| >= 1
    && match e
       case SendTo(_, peer) =>
         peer < |sv.nextIndex| && (sv.nextIndex[peer] > sv.lastIncludedIndex ==> sv.nextIndex[peer] <= sv.LastLogIndex() + 1)
       case OnEntriesReply(p) =>
         && 0 <= p.src < |sv.nextIndex| && |sv.matchIndex| == |sv.nextIndex|
         && (p.entries.term == sv.currentTerm && sv.role == Leader ==> p.entries.prevLogIndex <= sv.LastLogIndex())
       case OnSnapshotReply(p) => 0 <= p.src < |sv.nextIndex| && |sv.matchIndex| == |sv.nextIndex|
       case CommitCheck(_) => |sv.matchIndex| == sv.peers
       case Deliver(_) => 0 <= sv.lastApplied + 1 - sv.lastIncludedIndex < |sv.logs|
       case _ => true
  }

  function Put(sys: System, s: int, sv: Server): System
    requires IsServer(sys, s)
  {
    sys.(servers := sys.servers[s := sv])
  }

  function Send(sys: System, p: Packet): System
  {
    sys.(net := sys.net + {p})
  }

  /** The service takes what the server hands it: a command, or a snapshot that is ahead of its state,
      which it replaces (the sharded service's guard). */
  function Hand(sys: System, s: int, msg: Option<ApplyMsg>): System
    requires IsServer(sys, s)
  {
    match msg
    case None => sys
    case Some(CommandMsg(index, command)) =>
      sys.(service := sys.service[s := sys.service[s] + [command]],
           delivered := sys.delivered + {Delivery(s, index, command)})
    case Some(SnapshotMsg(index, data)) =>
      if index > |sys.service[s]| then sys.(service := sys.service[s := data]) else sys
  }

  function After(sys: System, e: Event): System
    requires Enabled(sys, e) && NoPanic(sys, e)
  {
    var s := At(e);
    var sv := sys.servers[s];
    match e
    case Timeout(_) => Put(sys, s, StartElection(sv))
    case AskVote(_, peer) => Send(sys, VoteRequest(s, peer, MakeVoteArgs(sv)))
    case OnVoteRequest(p) =>
      var (sv', reply) := RequestVote(sv, p.vote);
      Send(Put(sys, s, sv'), VoteReply(s, p.src, p.vote, reply))
    case OnVoteReply(p) =>
      var counted := sv.role == Candidate && p.vote.term == sv.currentTerm;
      Put(sys, s, HandleRequestVoteReply(sv, p.src, counted, p.voteReply))
    case Win(_) => Put(sys, s, BecomeLeader(sv))
    case Client(_, command) => Put(sys, s, Start(sv, command).0)
    case SendTo(_, peer) =>
      if sv.nextIndex[peer] <= sv.lastIncludedIndex then Send(sys, SnapshotRequest(s, peer, MakeSnapshotArgs(sv)))
      else Send(sys, EntriesRequest(s, peer, MakeAppendArgs(sv, peer)))
    case OnEntries(p) =>
      var (sv', reply) := AppendEntries(sv, p.entries);
      Send(Put(sys, s, sv'), EntriesReply(s, p.src, p.entries, reply))
    case OnEntriesReply(p) => Put(sys, s, HandleAppendEntriesReply(sv, p.src, p.entries, p.entriesReply))
    case OnSnapshot(p) =>
      var (sv', term, msg) := InstallSnapshot(sv, p.snapshot);
      Hand(Send(Put(sys, s, sv'), SnapshotReply(s, p.src, p.snapshot, term)), s, msg)
    case OnSnapshotReply(p) => Put(sys, s, HandleInstallSnapshotReply(sv, p.src, p.snapshot, p.term))
    case CommitCheck(_) => Put(sys, s, CheckCommit(sv))
    case Deliver(_) =>
      var (sv', msg) := ApplyNext(sv);
      Hand(Put(sys, s, sv'), s, msg)
    case TakeSnapshot(_, index) => Put(sys, s, Snapshot(sv, index, sys.service[s][..index]))
    case Crash(_) => Put(sys, s, Restart(sv)).(service := sys.service[s := sv.disk.snapshot])
  }

  /** The i-th event leads from the i-th state to the next. */
  ghost predicate StepAt(run: seq<System>, events: seq<Event>, i: nat)
  {
    && i < |events| && i + 1 < |run| && Enabled(run[i], events[i]) && NoPanic(run[i], events[i])
    && run[i + 1] == After(run[i], events[i])
  }

  /** The states that n servers pass through under a sequence of events. */
  ghost predicate IsRun(n: nat, run: seq<System>, events: seq<Event>)
  {
    && n > 0 && |run| == |events| + 1 && run[0] == Initial(n)
    && forall i: nat :: i < |events| ==> StepAt(run, events, i)
  }
}
