/** The invariant that ties a cluster of compacted servers and its packets to a chronicle of full logs. */
module RaftInvariant {
  import opened RaftEntries
  import opened RaftProtocol
  import opened RaftHandlers
  import opened RaftCompaction
  import opened RaftSystem

  ghost predicate VoteInv(sv: Server, c: Chronicle, s: int)
    requires 0 <= s < c.N()
  {
    && -1 <= sv.votedFor < c.N()
    && sv.votedFor == if (s, c.term[s]) in c.vote then c.vote[(s, c.term[s])] else -1
  }

  /** nextIndex never points past the end of the log, and matchIndex only claims what the peer accepted in
      this term, except for the unacknowledged lastIncludedIndex that initLeader puts there. */
  ghost predicate LeaderInv(sv: Server, c: Chronicle, s: int)
    requires 0 <= s < c.N() && |c.log| == c.N() && |sv.nextIndex| == |sv.matchIndex| == c.N()
  {
    && c.Leads(s)
    && c.Acc(s, c.term[s]) == |c.log[s]|
    && (forall i :: 0 <= i < c.N() ==> sv.nextIndex[i] <= |c.log[s]|)
    && (forall i :: 0 <= i < c.N() && i != s ==>
          sv.matchIndex[i] < c.Acc(i, c.term[s]) || sv.matchIndex[i] <= sv.lastIncludedIndex)
  }

  ghost predicate CandidateInv(sv: Server, c: Chronicle, s: int)
    requires 0 <= s < c.N()
  {
    var t := c.term[s];
    && (s, t) in c.cand
    && (t in c.leaderOf ==> c.leaderOf[t] != s)
    && forall v :: v in sv.votes ==> 0 <= v < c.N() && (v, t) in c.vote && c.vote[(v, t)] == s
  }

  /** A server stores the full log l, of which a prefix is committed by term t: it covers what was applied,
      and that covers the snapshot, which holds its commands. */
  ghost predicate Stores(sv: Server, service: seq<Command>, l: seq<Entry>, c: Chronicle, t: int)
  {
    && Refines(sv, l)
    && -1 <= sv.lastApplied <= sv.commitIndex < |l|
    && (sv.lastIncludedIndex <= sv.lastApplied || (sv.lastIncludedIndex == 0 && sv.lastApplied == -1))
    && c.CommittedBy(t, l[..sv.commitIndex + 1])
    && sv.disk.snapshot == Commands(l[..sv.lastIncludedIndex + 1])
    && service == Commands(l[..sv.lastApplied + 1])
  }

  /** Everything about a server but its role and its vote; its disk mirrors it. */
  ghost predicate CoreInv(sv: Server, service: seq<Command>, c: Chronicle, s: int)
    requires 0 <= s < c.N() && |c.log| == c.N()
  {
    && sv.me == s && sv.peers == c.N() && sv.Shaped()
    && sv.currentTerm == c.term[s]
    && Persist(sv) == sv
    && Stores(sv, service, c.log[s], c, c.term[s])
  }

  ghost predicate ServerInv(sv: Server, service: seq<Command>, c: Chronicle, s: int)
    requires 0 <= s < c.N() && |c.log| == c.N()
  {
    && CoreInv(sv, service, c, s)
    && VoteInv(sv, c, s)
    && (sv.role == Leader ==> LeaderInv(sv, c, s))
    && (sv.role == Candidate ==> CandidateInv(sv, c, s))
  }

  /** An AppendEntries call carries a slice of its leader's log, and commits no more than it covers. */
  ghost predicate EntriesInv(args: AppendEntriesArgs, c: Chronicle, leader: int)
  {
    var t, prev := args.term, args.prevLogIndex;
    && t > 0 && t in c.tlog && t in c.leaderOf && c.leaderOf[t] == leader
    && 0 <= prev && prev + 1 + |args.entries| <= |c.tlog[t]|
    && c.tlog[t][prev].term == args.prevLogTerm
    && args.entries == c.tlog[t][prev + 1..prev + 1 + |args.entries|]
    && -1 <= args.leaderCommit <= prev + |args.entries|
    && c.CommittedBy(t, c.tlog[t][..args.leaderCommit + 1])
  }

  /** An InstallSnapshot call carries a committed prefix of its leader's log. */
  ghost predicate SnapshotInv(args: InstallSnapshotArgs, c: Chronicle, leader: int)
  {
    var t, k := args.term, args.lastIncludedIndex;
    && t > 0 && t in c.tlog && t in c.leaderOf && c.leaderOf[t] == leader
    && 0 <= k < |c.tlog[t]|
    && c.tlog[t][k].term == args.lastIncludedTerm
    && args.lastIncludedPublicIndex == |Commands(c.tlog[t][..k + 1])|
    && args.data == Commands(c.tlog[t][..k + 1])
    && c.CommittedBy(t, c.tlog[t][..k + 1])
  }

  ghost predicate VoteRequestInv(src: int, args: RequestVoteArgs, c: Chronicle)
  {
    && 0 <= src < c.N() && args.candidateId == src && args.term <= c.term[src]
    && ((src, args.term) in c.cand && args.term !in c.tlog ==>
          var l := c.cand[(src, args.term)];
          |l| > 0 && args.lastLogIndex == |l| - 1 && args.lastLogTerm == l[|l| - 1].term)
  }

  ghost predicate PacketInv(p: Packet, c: Chronicle)
  {
    0 <= p.src < c.N() && 0 <= p.dst < c.N() && p.src != p.dst &&
    match p
    case VoteRequest(src, _, args) => VoteRequestInv(src, args, c)
    case VoteReply(src, dst, args, reply) =>
      reply.voteGranted ==> (src, args.term) in c.vote && c.vote[(src, args.term)] == dst
    case EntriesRequest(src, _, args) => EntriesInv(args, c, src)
    case EntriesReply(src, dst, args, reply) =>
      && EntriesInv(args, c, dst)
      && (reply.success ==> args.prevLogIndex + |args.entries| < c.Acc(src, args.term))
      && (!reply.success && reply.term <= args.term ==> reply.conflictIndex <= |c.tlog[args.term]|)
    case SnapshotRequest(src, _, args) => SnapshotInv(args, c, src)
    case SnapshotReply(src, dst, args, term) =>
      && SnapshotInv(args, c, dst)
      && (term <= args.term ==> args.lastIncludedIndex < c.Acc(src, args.term))
  }

  /** What was delivered under a public index is the command at that index of a committed log. */
  ghost predicate DeliveryInv(d: Delivery, c: Chronicle)
  {
    exists t, l :: c.CommittedBy(t, l) && 1 <= d.index <= |Commands(l)| && Commands(l)[d.index - 1] == d.command
  }

  ghost predicate ServersInv(sys: System, c: Chronicle)
    requires |c.log| == c.N() == |sys.servers| == |sys.service|
  {
    forall s :: 0 <= s < c.N() ==> ServerInv(sys.servers[s], sys.service[s], c, s)
  }

  ghost predicate SystemInv(sys: System, c: Chronicle)
  {
    && c.Inv() && |sys.servers| == |sys.service| == c.N()
    && ServersInv(sys, c)
    && (forall p :: p in sys.net ==> PacketInv(p, c))
    && (forall d :: d in sys.delivered ==> DeliveryInv(d, c))
  }

  // ---------------------------------------------------------------------------------------------
  // What a step at another server leaves valid
  // ---------------------------------------------------------------------------------------------

  /** The step from c to c' is not one of server s, nor of the leader s. */
  ghost predicate Untouched(c: Chronicle, c': Chronicle, s: int)
    requires 0 <= s < c.N() && c'.N() == c.N() == |c.log| == |c'.log|
  {
    var t := c.term[s];
    && c'.term[s] == t && c'.log[s] == c.log[s]
    && ((s, t) in c'.vote ==> (s, t) in c.vote)
    && (t in c.tlog && t in c.leaderOf && c.leaderOf[t] == s ==>
          t in c'.tlog && c'.tlog[t] == c.tlog[t])
    && c'.Acc(s, t) == c.Acc(s, t)
    && (t in c'.leaderOf && c'.leaderOf[t] == s ==> t in c.leaderOf)
  }

  lemma ServerFrame(sv: Server, service: seq<Command>, c: Chronicle, c': Chronicle, s: int)
    requires 0 <= s < c.N() && c'.N() == c.N() == |c.log| == |c'.log|
    requires ServerInv(sv, service, c, s) && Grows(c, c') && Untouched(c, c', s)
    ensures ServerInv(sv, service, c', s)
  {
    CommittedByGrows(c, c', c.term[s], c.log[s][..sv.commitIndex + 1]);
  }

  lemma EntriesFrame(args: AppendEntriesArgs, c: Chronicle, c': Chronicle, leader: int)
    requires EntriesInv(args, c, leader) && Grows(c, c')
    ensures EntriesInv(args, c', leader)
  {
    var t := args.term;
    assert c.tlog[t] <= c'.tlog[t];
    CommittedByGrows(c, c', t, c.tlog[t][..args.leaderCommit + 1]);
    assert c'.tlog[t][..args.leaderCommit + 1] == c.tlog[t][..args.leaderCommit + 1];
  }

  lemma SnapshotFrame(args: InstallSnapshotArgs, c: Chronicle, c': Chronicle, leader: int)
    requires SnapshotInv(args, c, leader) && Grows(c, c')
    ensures SnapshotInv(args, c', leader)
  {
    var t, k := args.term, args.lastIncludedIndex;
    assert c.tlog[t] <= c'.tlog[t];
    CommittedByGrows(c, c', t, c.tlog[t][..k + 1]);
    assert c'.tlog[t][..k + 1] == c.tlog[t][..k + 1];
  }

  lemma PacketFrame(p: Packet, c: Chronicle, c': Chronicle)
    requires PacketInv(p, c) && Grows(c, c')
    ensures PacketInv(p, c')
  {
    match p
    case VoteRequest(src, _, args) =>
    case VoteReply(src, dst, args, reply) =>
    case EntriesRequest(src, _, args) => EntriesFrame(args, c, c', src);
    case EntriesReply(src, dst, args, reply) =>
      EntriesFrame(args, c, c', dst);
      assert c.Acc(src, args.term) <= c'.Acc(src, args.term);
    case SnapshotRequest(src, _, args) => SnapshotFrame(args, c, c', src);
    case SnapshotReply(src, dst, args, term) =>
      SnapshotFrame(args, c, c', dst);
      assert c.Acc(src, args.term) <= c'.Acc(src, args.term);
  }

  lemma DeliveryFrame(d: Delivery, c: Chronicle, c': Chronicle)
    requires DeliveryInv(d, c) && Grows(c, c')
    ensures DeliveryInv(d, c')
  {
    var t, l :| c.CommittedBy(t, l) && 1 <= d.index <= |Commands(l)| && Commands(l)[d.index - 1] == d.command;
    CommittedByGrows(c, c', t, l);
  }

  /** Everything but the server at which the step happens, the packets it sends and what it delivers. */
  lemma Assemble(sys: System, c: Chronicle, sys': System, c': Chronicle, s: int)
    requires SystemInv(sys, c) && c'.Inv() && Grows(c, c') && 0 <= s < c.N()
    requires |sys'.servers| == |sys'.service| == c.N()
    requires forall i :: 0 <= i < c.N() && i != s ==>
               Untouched(c, c', i) && sys'.servers[i] == sys.servers[i] && sys'.service[i] == sys.service[i]
    requires ServerInv(sys'.servers[s], sys'.service[s], c', s)
    requires forall p :: p in sys'.net ==> p in sys.net || PacketInv(p, c')
    requires forall d :: d in sys'.delivered ==> d in sys.delivered || DeliveryInv(d, c')
    ensures SystemInv(sys', c')
  {
    forall i | 0 <= i < c.N()
      ensures ServerInv(sys'.servers[i], sys'.service[i], c', i)
    {
      if i != s { ServerFrame(sys.servers[i], sys.service[i], c, c', i); }
    }
    forall p | p in sys'.net
      ensures PacketInv(p, c')
    {
      if p in sys.net { PacketFrame(p, c, c'); }
    }
    forall d | d in sys'.delivered
      ensures DeliveryInv(d, c')
    {
      if d in sys.delivered { DeliveryFrame(d, c, c'); }
    }
  }
}
