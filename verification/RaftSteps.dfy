/** Every event of a cluster keeps the invariant: for each one the chronicle after it, and the server's part. */
module RaftSteps {
  import opened RaftEntries
  import opened RaftProtocol
  import P = RaftProtocolSteps
  import opened RaftHandlers
  import opened RaftCompaction
  import opened RaftSystem
  import opened RaftInvariant

  // ---------------------------------------------------------------------------------------------
  // Facts about one server
  // ---------------------------------------------------------------------------------------------

  /** The same compacted log and the same progress. */
  ghost predicate SameLog(sv: Server, sv': Server)
  {
    && sv'.me == sv.me && sv'.peers == sv.peers && sv'.logs == sv.logs
    && sv'.lastIncludedIndex == sv.lastIncludedIndex && sv'.lastIncludedTerm == sv.lastIncludedTerm
    && sv'.lastIncludedPublicIndex == sv.lastIncludedPublicIndex
    && sv'.commitIndex == sv.commitIndex && sv'.lastApplied == sv.lastApplied
    && sv'.disk.snapshot == sv.disk.snapshot
  }

  lemma CoreSameLog(sv: Server, sv': Server, service: seq<Command>, c: Chronicle, c': Chronicle, s: int)
    requires 0 <= s < c.N() && c'.N() == c.N() == |c.log| == |c'.log|
    requires CoreInv(sv, service, c, s) && Grows(c, c') && c'.log[s] == c.log[s]
    requires SameLog(sv, sv') && sv'.Shaped() && Persist(sv') == sv' && sv'.currentTerm == c'.term[s]
    ensures CoreInv(sv', service, c', s)
  {
    hide Commands, Chronicle.CommittedBy, Persist;
    var l := c.log[s][..sv.commitIndex + 1];
    CommittedByGrows(c, c', c.term[s], l);
    CommittedShorter(c', c.term[s], l, l, c'.term[s]);
  }

  lemma GrowsReflexive(c: Chronicle)
    requires |c.log| == c.N()
    ensures Grows(c, c)
  {
  }

  /** Everything a snapshot covers is committed. */
  lemma SnapshotCommitted(sv: Server, service: seq<Command>, c: Chronicle, s: int)
    requires c.Inv() && 0 <= s < c.N() && CoreInv(sv, service, c, s)
    ensures c.CommittedBy(c.term[s], c.log[s][..sv.lastIncludedIndex + 1])
  {
    assert c.ServerShape(s);
    if sv.lastIncludedIndex <= sv.commitIndex {
      CommittedShorter(c, c.term[s], c.log[s][..sv.commitIndex + 1], c.log[s][..sv.lastIncludedIndex + 1], c.term[s]);
    } else {
      SentinelCommitted(c, c.term[s]);
      assert c.log[s][..1] == [SENTINEL];
    }
  }

  lemma NoVoteAhead(c: Chronicle, s: int, t: int)
    requires c.Inv() && 0 <= s < c.N() && t > c.term[s]
    ensures (s, t) !in c.vote && (s, t) !in c.cand && (t in c.leaderOf ==> c.leaderOf[t] != s)
  {
    assert c.VoteShape((s, t)) && c.CandShape((s, t)) && c.Elected(t) && c.ServerShape(s);
    if t in c.leaderOf {
      var v := Pick(c.voters[t]);
      assert c.VoteShape((v, t));
    }
  }

  /** Seeing a higher term: the server becomes a follower without a vote. */
  lemma BumpServer(sv: Server, sv': Server, service: seq<Command>, c: Chronicle, s: int, t: int) returns (c': Chronicle)
    requires c.Inv() && 0 <= s < c.N() && ServerInv(sv, service, c, s) && t > c.term[s]
    requires SameLog(sv, sv') && sv'.Shaped() && Persist(sv') == sv' && sv'.currentTerm == t
    requires sv'.role == Follower && sv'.votedFor == -1
    ensures c' == P.Bump(c, s, t) && c'.Inv() && Grows(c, c') && ServerInv(sv', service, c', s)
    ensures forall i :: 0 <= i < c.N() && i != s ==> Untouched(c, c', i)
  {
    c' := P.Bump(c, s, t);
    P.BumpInv(c, s, t);
    NoVoteAhead(c, s, t);
    CoreSameLog(sv, sv', service, c, c', s);
  }

  // ---------------------------------------------------------------------------------------------
  // Elections
  // ---------------------------------------------------------------------------------------------

  lemma TimeoutServer(sv: Server, service: seq<Command>, c: Chronicle, s: int) returns (c': Chronicle)
    requires c.Inv() && 0 <= s < c.N() && ServerInv(sv, service, c, s) && sv.role != Leader
    ensures c'.Inv() && Grows(c, c') && ServerInv(StartElection(sv), service, c', s)
    ensures forall i :: 0 <= i < c.N() && i != s ==> Untouched(c, c', i)
  {
    hide Grows, Stores;
    c' := P.Campaign(c, s);
    P.CampaignInv(c, s);
    NoVoteAhead(c, s, c.term[s] + 1);
    CoreSameLog(sv, StartElection(sv), service, c, c', s);
  }

  lemma TimeoutStep(sys: System, c: Chronicle, e: Event) returns (c': Chronicle)
    requires SystemInv(sys, c) && Enabled(sys, e) && NoPanic(sys, e) && e.Timeout?
    ensures Grows(c, c') && SystemInv(After(sys, e), c')
  {
    hide Chronicle.Inv, ServerInv, Grows, Untouched, StartElection;
    c' := TimeoutServer(sys.servers[e.s], sys.service[e.s], c, e.s);
    Assemble(sys, c, After(sys, e), c', e.s);
  }

  lemma AskVoteStep(sys: System, c: Chronicle, e: Event) returns (c': Chronicle)
    requires SystemInv(sys, c) && Enabled(sys, e) && NoPanic(sys, e) && e.AskVote?
    ensures Grows(c, c') && SystemInv(After(sys, e), c')
  {
    c' := c;
    GrowsReflexive(c);
    var sv := sys.servers[e.s];
    RefinesAt(sv, c.log[e.s], |c.log[e.s]| - 1);
    assert c.CandShape((e.s, c.term[e.s]));
    assert PacketInv(VoteRequest(e.s, e.peer, MakeVoteArgs(sv)), c);
    Assemble(sys, c, After(sys, e), c, e.s);
  }

  /** The voter's check, on full logs. */
  ghost predicate Refuses(l: seq<Entry>, args: RequestVoteArgs)
    requires |l| > 0
  {
    l[|l| - 1].term > args.lastLogTerm || (l[|l| - 1].term == args.lastLogTerm && |l| - 1 > args.lastLogIndex)
  }

  lemma PassedMayVote(c: Chronicle, s: int, src: int, args: RequestVoteArgs)
    requires c.Inv() && 0 <= s < c.N() && (s, c.term[s]) !in c.vote && |c.log[s]| > 0
    requires VoteRequestInv(src, args, c) && args.term == c.term[s] && !Refuses(c.log[s], args)
    ensures P.MayVote(c, s, src)
  {
  }

  /** A server without a vote in its term votes for a candidate whose log passed the check. */
  lemma GrantServer(sv: Server, sv': Server, service: seq<Command>, c: Chronicle, s: int, src: int, args: RequestVoteArgs)
    returns (c': Chronicle)
    requires c.Inv() && 0 <= s < c.N() && ServerInv(sv, service, c, s) && sv.votedFor == -1
    requires VoteRequestInv(src, args, c) && args.term == c.term[s] && |c.log[s]| > 0 && !Refuses(c.log[s], args)
    requires sv' == Persist(sv.(votedFor := src))
    ensures c'.Inv() && Grows(c, c') && ServerInv(sv', service, c', s)
    ensures (s, args.term) in c'.vote && c'.vote[(s, args.term)] == src
    ensures forall i :: 0 <= i < c.N() && i != s ==> Untouched(c, c', i)
  {
    assert c.VoteShape((s, c.term[s]));
    PassedMayVote(c, s, src, args);
    c' := P.Vote(c, s, src);
    P.VoteInv(c, s, src);
    CoreSameLog(sv, sv', service, c, c', s);
  }

  lemma GrowsTransitive(c: Chronicle, c1: Chronicle, c2: Chronicle)
    requires Grows(c, c1) && Grows(c1, c2)
    ensures Grows(c, c2)
  {
    forall s, t
      ensures c.Acc(s, t) <= c2.Acc(s, t)
    {
      assert c.Acc(s, t) <= c1.Acc(s, t);
    }
  }

  lemma UntouchedTransitive(c: Chronicle, c1: Chronicle, c2: Chronicle, i: int)
    requires 0 <= i < c.N() && c1.N() == c2.N() == c.N() == |c.log| == |c1.log| == |c2.log|
    requires Untouched(c, c1, i) && Untouched(c1, c2, i) && Grows(c, c1) && Grows(c1, c2)
    ensures Untouched(c, c2, i)
  {
  }

  lemma HigherTermVote(sv: Server, l: seq<Entry>, args: RequestVoteArgs)
    requires |sv.logs| >= 1 && Refines(sv, l) && sv.currentTerm < args.term
    ensures RequestVote(sv, args) ==
            if Refuses(l, args) then (StepDown(sv, args.term), RequestVoteReply(args.term, false))
            else (Persist(StepDown(sv, args.term).(votedFor := args.candidateId)), RequestVoteReply(args.term, true))
  {
    RefinesAt(sv, l, |l| - 1);
  }

  lemma VoteInHigherTerm(sv: Server, service: seq<Command>, c: Chronicle, s: int, src: int, args: RequestVoteArgs)
    returns (c': Chronicle)
    requires c.Inv() && 0 <= s < c.N() && ServerInv(sv, service, c, s) && VoteRequestInv(src, args, c)
    requires sv.currentTerm < args.term
    ensures c'.Inv() && Grows(c, c') && ServerInv(RequestVote(sv, args).0, service, c', s)
    ensures forall i :: 0 <= i < c.N() && i != s ==> Untouched(c, c', i)
    ensures RequestVote(sv, args).1.voteGranted ==> (s, args.term) in c'.vote && c'.vote[(s, args.term)] == src
  {
    HigherTermVote(sv, c.log[s], args);
    var sv1 := StepDown(sv, args.term);
    var c1 := BumpServer(sv, sv1, service, c, s, args.term);
    if Refuses(c.log[s], args) {
      c' := c1;
    } else {
      assert VoteRequestInv(src, args, c1);
      c' := GrantServer(sv1, Persist(sv1.(votedFor := src)), service, c1, s, src, args);
      GrowsTransitive(c, c1, c');
      forall i | 0 <= i < c.N() && i != s ensures Untouched(c, c', i) { UntouchedTransitive(c, c1, c', i); }
    }
  }

  lemma VoteInSameTerm(sv: Server, service: seq<Command>, c: Chronicle, s: int, src: int, args: RequestVoteArgs)
    returns (c': Chronicle)
    requires c.Inv() && 0 <= s < c.N() && ServerInv(sv, service, c, s) && VoteRequestInv(src, args, c)
    requires sv.currentTerm >= args.term
    ensures c'.Inv() && Grows(c, c') && ServerInv(RequestVote(sv, args).0, service, c', s)
    ensures forall i :: 0 <= i < c.N() && i != s ==> Untouched(c, c', i)
    ensures RequestVote(sv, args).1.voteGranted ==> (s, args.term) in c'.vote && c'.vote[(s, args.term)] == src
  {
    RefinesAt(sv, c.log[s], |c.log[s]| - 1);
    var (sv', reply) := RequestVote(sv, args);
    if sv.currentTerm == args.term && sv.votedFor == -1 && reply.voteGranted {
      c' := GrantServer(sv, sv', service, c, s, src, args);
    } else {
      c' := c;
      GrowsReflexive(c);
      CoreSameLog(sv, sv', service, c, c', s);
    }
  }

  lemma VoteRequestStep(sys: System, c: Chronicle, e: Event) returns (c': Chronicle)
    requires SystemInv(sys, c) && Enabled(sys, e) && NoPanic(sys, e) && e.OnVoteRequest?
    ensures Grows(c, c') && SystemInv(After(sys, e), c')
  {
    hide Chronicle.Inv, ServerInv, VoteRequestInv, Grows, Untouched, RequestVote;
    var s, args := At(e), e.packet.vote;
    assert PacketInv(e.packet, c);
    if sys.servers[s].currentTerm < args.term {
      c' := VoteInHigherTerm(sys.servers[s], sys.service[s], c, s, e.packet.src, args);
    } else {
      c' := VoteInSameTerm(sys.servers[s], sys.service[s], c, s, e.packet.src, args);
    }
    Assemble(sys, c, After(sys, e), c', s);
  }

  lemma VoteReplyServer(sv: Server, service: seq<Command>, c: Chronicle, s: int, src: int, vote: RequestVoteArgs, reply: RequestVoteReply)
    returns (c': Chronicle)
    requires c.Inv() && 0 <= s < c.N() && ServerInv(sv, service, c, s) && PacketInv(VoteReply(src, s, vote, reply), c)
    ensures c'.Inv() && Grows(c, c')
    ensures ServerInv(HandleRequestVoteReply(sv, src, sv.role == Candidate && vote.term == sv.currentTerm, reply), service, c', s)
    ensures forall i :: 0 <= i < c.N() && i != s ==> Untouched(c, c', i)
  {
    hide Grows, Stores;
    GrowsReflexive(c);
    if !reply.voteGranted && reply.term > sv.currentTerm {
      c' := BumpServer(sv, StepDown(sv, reply.term), service, c, s, reply.term);
    } else {
      c' := c;
      var counted := sv.role == Candidate && vote.term == sv.currentTerm;
      CoreSameLog(sv, HandleRequestVoteReply(sv, src, counted, reply), service, c, c', s);
    }
  }

  lemma VoteReplyStep(sys: System, c: Chronicle, e: Event) returns (c': Chronicle)
    requires SystemInv(sys, c) && Enabled(sys, e) && NoPanic(sys, e) && e.OnVoteReply?
    ensures Grows(c, c') && SystemInv(After(sys, e), c')
  {
    hide Chronicle.Inv, ServerInv, Grows, Untouched, HandleRequestVoteReply;
    var s, p := At(e), e.packet;
    assert PacketInv(p, c);
    c' := VoteReplyServer(sys.servers[s], sys.service[s], c, s, p.src, p.vote, p.voteReply);
    Assemble(sys, c, After(sys, e), c', s);
  }

  /** Election safety: a candidate with a majority is the first and only leader of its term. */
  lemma MajorityMayLead(sv: Server, service: seq<Command>, c: Chronicle, s: int)
    requires c.Inv() && 0 <= s < c.N() && ServerInv(sv, service, c, s) && sv.role == Candidate
    requires 2 * |sv.votes| > sv.peers
    ensures P.MayLead(c, s, sv.votes) && c.term[s] !in c.leaderOf
  {
    var t := c.term[s];
    assert c.Elected(t) && c.ServerShape(s);
    if t in c.tlog {
      var v := QuorumsMeet(c.voters[t], sv.votes, c.N());
      assert false;
    }
  }

  lemma WinServer(sv: Server, service: seq<Command>, c: Chronicle, s: int) returns (c': Chronicle)
    requires c.Inv() && 0 <= s < c.N() && ServerInv(sv, service, c, s) && sv.role == Candidate
    requires 2 * |sv.votes| > sv.peers
    ensures c'.Inv() && Grows(c, c') && ServerInv(BecomeLeader(sv), service, c', s)
    ensures forall i :: 0 <= i < c.N() && i != s ==> Untouched(c, c', i)
  {
    hide Grows, Commands, Chronicle.CommittedBy;
    MajorityMayLead(sv, service, c, s);
    assert c.ServerShape(s);
    c' := P.Lead(c, s, sv.votes);
    P.LeadInv(c, s, sv.votes);
    AppendServer(sv, BecomeLeader(sv), service, c, c', s, Entry(c.term[s], None));
  }

  lemma WinStep(sys: System, c: Chronicle, e: Event) returns (c': Chronicle)
    requires SystemInv(sys, c) && Enabled(sys, e) && NoPanic(sys, e) && e.Win?
    ensures Grows(c, c') && SystemInv(After(sys, e), c')
  {
    hide Chronicle.Inv, ServerInv, Grows, Untouched, BecomeLeader;
    c' := WinServer(sys.servers[e.s], sys.service[e.s], c, e.s);
    Assemble(sys, c, After(sys, e), c', e.s);
  }

  // ---------------------------------------------------------------------------------------------
  // Leaders
  // ---------------------------------------------------------------------------------------------

  /** Appending an entry at the end of the log leaves the committed part where it was. */
  lemma AppendServer(sv: Server, sv': Server, service: seq<Command>, c: Chronicle, c': Chronicle, s: int, entry: Entry)
    requires 0 <= s < c.N() && c'.N() == c.N() == |c.log| == |c'.log|
    requires CoreInv(sv, service, c, s) && Grows(c, c') && c'.log[s] == c.log[s] + [entry] && c'.term[s] == c.term[s]
    requires sv'.logs == sv.logs + [entry] && SameLog(sv, sv'.(logs := sv.logs)) && sv'.Shaped() && Persist(sv') == sv'
    requires sv'.currentTerm == sv.currentTerm
    ensures CoreInv(sv', service, c', s)
  {
    var l := c.log[s][..sv.commitIndex + 1];
    RefinesAppend(sv, c.log[s], entry);
    hide Refines, Commands, Chronicle.CommittedBy, Grows;
    CommittedByGrows(c, c', c.term[s], l);
    assert c'.log[s][..sv.commitIndex + 1] == l;
    assert c'.log[s][..sv.lastApplied + 1] == c.log[s][..sv.lastApplied + 1];
    assert c'.log[s][..sv.lastIncludedIndex + 1] == c.log[s][..sv.lastIncludedIndex + 1];
  }

  lemma ClientServer(sv: Server, service: seq<Command>, c: Chronicle, s: int, command: Command) returns (c': Chronicle)
    requires c.Inv() && 0 <= s < c.N() && ServerInv(sv, service, c, s)
    ensures c'.Inv() && Grows(c, c') && ServerInv(Start(sv, command).0, service, c', s)
    ensures forall i :: 0 <= i < c.N() && i != s ==> Untouched(c, c', i)
  {
    hide Grows, Stores, RealToPublic;
    if sv.role == Leader {
      c' := P.Append(c, s, Some(command));
      P.AppendInv(c, s, Some(command));
      AppendServer(sv, Start(sv, command).0, service, c, c', s, Entry(c.term[s], Some(command)));
    } else {
      c' := c;
      GrowsReflexive(c);
    }
  }

  lemma ClientStep(sys: System, c: Chronicle, e: Event) returns (c': Chronicle)
    requires SystemInv(sys, c) && Enabled(sys, e) && NoPanic(sys, e) && e.Client?
    ensures Grows(c, c') && SystemInv(After(sys, e), c')
  {
    hide Chronicle.Inv, ServerInv, Grows, Untouched, Start;
    c' := ClientServer(sys.servers[e.s], sys.service[e.s], c, e.s, e.command);
    Assemble(sys, c, After(sys, e), c', e.s);
  }

  /** The offsets of the call mean real indices of the full log. */
  lemma AppendSlice(sv: Server, l: seq<Entry>, peer: int)
    requires Refines(sv, l) && 0 <= peer < |sv.nextIndex| && sv.lastIncludedIndex < sv.nextIndex[peer] <= sv.LastLogIndex() + 1
    ensures var next, args := sv.nextIndex[peer], MakeAppendArgs(sv, peer);
            && next <= |l| == sv.LastLogIndex() + 1 && args.prevLogIndex == next - 1 && args.prevLogTerm == l[next - 1].term
            && args.entries == l[next..] && args.leaderCommit == sv.commitIndex && args.term == sv.currentTerm
  {
    hide Commands;
    RefinesAt(sv, l, sv.nextIndex[peer] - 1);
  }

  lemma AppendArgsInv(sv: Server, service: seq<Command>, c: Chronicle, s: int, peer: int)
    requires c.Inv() && 0 <= s < c.N() && ServerInv(sv, service, c, s) && sv.role == Leader
    requires 0 <= peer < c.N() && sv.lastIncludedIndex < sv.nextIndex[peer] <= sv.LastLogIndex() + 1
    ensures EntriesInv(MakeAppendArgs(sv, peer), c, s)
  {
    AppendSlice(sv, c.log[s], peer);
    hide Chronicle.Inv, Refines, Commands, MakeAppendArgs, Chronicle.CommittedBy;
    var l := c.log[s];
    assert l[sv.nextIndex[peer]..] == l[sv.nextIndex[peer]..|l|];
  }

  lemma SendStep(sys: System, c: Chronicle, e: Event) returns (c': Chronicle)
    requires SystemInv(sys, c) && Enabled(sys, e) && NoPanic(sys, e) && e.SendTo?
    ensures Grows(c, c') && SystemInv(After(sys, e), c')
  {
    hide Chronicle.Inv, Grows, Chronicle.CommittedBy;
    c' := c;
    GrowsReflexive(c);
    if sys.servers[e.s].nextIndex[e.peer] <= sys.servers[e.s].lastIncludedIndex {
      SnapshotCommitted(sys.servers[e.s], sys.service[e.s], c, e.s);
    } else {
      AppendArgsInv(sys.servers[e.s], sys.service[e.s], c, e.s, e.peer);
    }
    Assemble(sys, c, After(sys, e), c', e.s);
  }
}
