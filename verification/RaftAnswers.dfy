/** What the answers of a run say and what they lead to: votes, accepted and refused entries, snapshots. Nothing here
    speaks of how a handler works; each statement compares a server before and after an event. */
module RaftAnswers {
  import opened RaftEntries
  import opened RaftProtocol
  import P = RaftProtocolSteps
  import opened RaftHandlers
  import opened RaftCompaction
  import opened RaftSystem
  import opened RaftInvariant
  import opened RaftSteps
  import opened RaftReplicationSteps
  import opened RaftSafety

  /** A server and the packets at one moment of a run, with a chronicle behind them. */
  lemma Moment(n: nat, run: seq<System>, events: seq<Event>, i: nat, s: int) returns (c: Chronicle)
    requires IsRun(n, run, events) && i < |run| && IsServer(run[i], s)
    ensures c.Inv() && 0 <= s < c.N() && ServerInv(run[i].servers[s], run[i].service[s], c, s)
    ensures forall p :: p in run[i].net ==> PacketInv(p, c)
  {
    hide PacketInv, ServerInv, Chronicle.Inv;
    var cs := Chronicles(n, run, events);
    ServerOf(run, cs, i, s);
    assert SystemInv(run[i], cs[i]);
    c := cs[i];
  }

  // ---------------------------------------------------------------------------------------------
  // Votes
  // ---------------------------------------------------------------------------------------------

  /** -1, 0 or 1: the server's log is less, as or more up to date than what the candidate says of its own. */
  function Compared(sv: Server, args: RequestVoteArgs): int
    requires |sv.logs| >= 1
  {
    var index, term := sv.LastLogIndex(), sv.TermAt(sv.LastLogIndex());
    if term != args.lastLogTerm then (if term > args.lastLogTerm then 1 else -1)
    else if index != args.lastLogIndex then (if index > args.lastLogIndex then 1 else -1)
    else 0
  }

  /** The term of the answer is the later of the two. In a new term the vote goes to whoever is not behind; in the same
      term it goes to who has it already, or, if nobody has, to who is strictly ahead. */
  ghost predicate RightVote(sv: Server, args: RequestVoteArgs, sv': Server, reply: RequestVoteReply)
    requires |sv.logs| >= 1
  {
    && reply.term == sv'.currentTerm == (if args.term > sv.currentTerm then args.term else sv.currentTerm)
    && reply.voteGranted == (if args.term > sv.currentTerm then Compared(sv, args) <= 0
                             else args.term == sv.currentTerm
                                  && (sv.votedFor == args.candidateId || (sv.votedFor == -1 && Compared(sv, args) < 0)))
    && sv'.votedFor == (if reply.voteGranted then args.candidateId else if args.term > sv.currentTerm then -1 else sv.votedFor)
    && (args.term > sv.currentTerm ==> sv'.role == Follower)
    && sv'.logs == sv.logs && sv'.lastIncludedIndex == sv.lastIncludedIndex && sv'.commitIndex == sv.commitIndex
    && (args.term < sv.currentTerm ==> sv' == sv)
  }

  lemma VoteAnswered(sys: System, p: Packet)
    requires Enabled(sys, OnVoteRequest(p)) && NoPanic(sys, OnVoteRequest(p))
    ensures |sys.servers[p.dst].logs| >= 1 && IsServer(After(sys, OnVoteRequest(p)), p.dst)
    ensures var reply := RequestVote(sys.servers[p.dst], p.vote).1;
            && RightVote(sys.servers[p.dst], p.vote, After(sys, OnVoteRequest(p)).servers[p.dst], reply)
            && VoteReply(p.dst, p.src, p.vote, reply) in After(sys, OnVoteRequest(p)).net
  {
  }

  /** Every vote request is answered rightly. */
  lemma VotesAreRight(n: nat, run: seq<System>, events: seq<Event>, i: nat, p: Packet) returns (reply: RequestVoteReply)
    requires IsRun(n, run, events) && i < |events| && events[i] == OnVoteRequest(p) && p.VoteRequest?
    ensures IsServer(run[i], p.dst) && IsServer(run[i + 1], p.dst) && |run[i].servers[p.dst].logs| >= 1
    ensures RightVote(run[i].servers[p.dst], p.vote, run[i + 1].servers[p.dst], reply)
    ensures VoteReply(p.dst, p.src, p.vote, reply) in run[i + 1].net
    ensures reply == RequestVote(run[i].servers[p.dst], p.vote).1
  {
    assert StepAt(run, events, i);
    VoteAnswered(run[i], p);
    reply := RequestVote(run[i].servers[p.dst], p.vote).1;
  }

  /** A vote counts for the running election; a refusal in a later term ends it, and the candidate takes that term over;
      anything else changes nothing. */
  lemma VotesAreCounted(n: nat, run: seq<System>, events: seq<Event>, i: nat, p: Packet)
    requires IsRun(n, run, events) && i < |events| && events[i] == OnVoteReply(p)
    ensures p.VoteReply? && IsServer(run[i], p.dst) && IsServer(run[i + 1], p.dst)
    ensures var sv, sv', reply := run[i].servers[p.dst], run[i + 1].servers[p.dst], p.voteReply;
            if reply.voteGranted then
              sv' == sv.(votes := if sv.role == Candidate && p.vote.term == sv.currentTerm then sv.votes + {p.src} else sv.votes)
            else if reply.term > sv.currentTerm then
              && sv'.currentTerm == reply.term && sv'.role == Follower && sv'.votedFor == -1
              && sv'.logs == sv.logs && sv'.commitIndex == sv.commitIndex
            else sv' == sv
  {
    assert StepAt(run, events, i);
  }

  /** A candidate of an old term that is refused learns the voter's term from the answer. */
  lemma StaleCandidateLearns(n: nat, run: seq<System>, events: seq<Event>, i: nat, j: nat, p: Packet, reply: RequestVoteReply)
    requires IsRun(n, run, events) && i < |events| && j < |events| && events[i] == OnVoteRequest(p) && p.VoteRequest?
    requires IsServer(run[i], p.dst) && p.vote.term < run[i].servers[p.dst].currentTerm && |run[i].servers[p.dst].logs| >= 1
    requires reply == RequestVote(run[i].servers[p.dst], p.vote).1 && events[j] == OnVoteReply(VoteReply(p.dst, p.src, p.vote, reply))
    ensures !reply.voteGranted && IsServer(run[j], p.src) && IsServer(run[j + 1], p.src)
    ensures run[j + 1].servers[p.src].currentTerm >= run[i].servers[p.dst].currentTerm
    ensures run[j].servers[p.src].currentTerm < run[i].servers[p.dst].currentTerm ==>
              run[j + 1].servers[p.src].role == Follower && run[j + 1].servers[p.src].currentTerm == run[i].servers[p.dst].currentTerm
  {
    var reply' := VotesAreRight(n, run, events, i, p);
    VotesAreCounted(n, run, events, j, VoteReply(p.dst, p.src, p.vote, reply));
  }

  /** A timeout opens an election in the next term with one vote, one's own, and what is asked of the others is a vote for
      this log in this term. */
  lemma CampaignOpens(n: nat, run: seq<System>, events: seq<Event>, i: nat, s: int)
    requires IsRun(n, run, events) && i < |events| && events[i] == Timeout(s)
    ensures IsServer(run[i], s) && IsServer(run[i + 1], s)
    ensures var sv, sv' := run[i].servers[s], run[i + 1].servers[s];
            && sv'.role == Candidate && sv'.currentTerm == sv.currentTerm + 1 && sv'.votedFor == s && sv'.votes == {s}
            && sv'.logs == sv.logs && sv'.lastIncludedIndex == sv.lastIncludedIndex && sv'.commitIndex == sv.commitIndex
  {
    assert StepAt(run, events, i);
    hide Chronicle.Inv, Stores;
    var c := Moment(n, run, events, i, s);
  }

  lemma AsksForItself(n: nat, run: seq<System>, events: seq<Event>, i: nat, s: int, peer: int)
    requires IsRun(n, run, events) && i < |events| && events[i] == AskVote(s, peer)
    ensures IsServer(run[i], s) && |run[i].servers[s].logs| >= 1
    ensures var sv := run[i].servers[s];
            VoteRequest(s, peer, RequestVoteArgs(sv.currentTerm, s, sv.LastLogIndex(), sv.TermAt(sv.LastLogIndex()))) in run[i + 1].net
  {
    assert StepAt(run, events, i);
    hide Chronicle.Inv, Stores;
    var c := Moment(n, run, events, i, s);
  }

  /** Who wins leads its term with one more entry, a no-op, and starts at that entry for every peer. */
  lemma WinnerLeads(n: nat, run: seq<System>, events: seq<Event>, i: nat, s: int)
    requires IsRun(n, run, events) && i < |events| && events[i] == Win(s)
    ensures IsServer(run[i], s) && IsServer(run[i + 1], s)
    ensures var sv, sv' := run[i].servers[s], run[i + 1].servers[s];
            && sv'.role == Leader && sv'.currentTerm == sv.currentTerm && sv'.logs == sv.logs + [Entry(sv.currentTerm, None)]
            && sv'.lastIncludedIndex == sv.lastIncludedIndex
            && (forall peer :: 0 <= peer < |sv'.nextIndex| ==> sv'.nextIndex[peer] == sv'.LastLogIndex() + 1)
            && (forall peer :: 0 <= peer < |sv'.matchIndex| ==> sv'.matchIndex[peer] == sv'.lastIncludedIndex)
  {
    assert StepAt(run, events, i);
  }

  // ---------------------------------------------------------------------------------------------
  // What a leader sends
  // ---------------------------------------------------------------------------------------------

  lemma MadeArgs(sv: Server, l: seq<Entry>, peer: int)
    requires Refines(sv, l) && 0 <= peer < |sv.nextIndex| && sv.lastIncludedIndex < sv.nextIndex[peer] <= sv.LastLogIndex() + 1
    ensures var next := sv.nextIndex[peer];
            MakeAppendArgs(sv, peer) == AppendEntriesArgs(sv.currentTerm, sv.me, next - 1, sv.TermAt(next - 1),
                                                          sv.logs[next - sv.lastIncludedIndex..], sv.commitIndex)
  {
    hide Commands;
    RefinesAt(sv, l, sv.nextIndex[peer] - 1);
  }

  /** The call that goes out, as the fields of the leader say. */
  ghost predicate RightCall(sv: Server, s: int, peer: int, p: Packet)
    requires 0 <= peer < |sv.nextIndex|
  {
    var next := sv.nextIndex[peer];
    if next <= sv.lastIncludedIndex then
      p == SnapshotRequest(s, peer, InstallSnapshotArgs(sv.currentTerm, s, sv.lastIncludedIndex, sv.lastIncludedTerm,
                                                        sv.lastIncludedPublicIndex, sv.disk.snapshot))
    else
      && next <= sv.LastLogIndex() + 1
      && p == EntriesRequest(s, peer, AppendEntriesArgs(sv.currentTerm, s, next - 1, sv.TermAt(next - 1),
                                                        sv.logs[next - sv.lastIncludedIndex..], sv.commitIndex))
  }

  lemma SendAfter(sys: System, s: int, peer: int, l: seq<Entry>) returns (p: Packet)
    requires Enabled(sys, SendTo(s, peer)) && NoPanic(sys, SendTo(s, peer)) && sys.servers[s].me == s && Refines(sys.servers[s], l)
    ensures peer < |sys.servers[s].nextIndex| && RightCall(sys.servers[s], s, peer, p) && p in After(sys, SendTo(s, peer)).net
  {
    hide Refines;
    var sv := sys.servers[s];
    if sv.nextIndex[peer] <= sv.lastIncludedIndex {
      p := SnapshotRequest(s, peer, MakeSnapshotArgs(sv));
    } else {
      p := EntriesRequest(s, peer, MakeAppendArgs(sv, peer));
      MadeArgs(sv, l, peer);
    }
  }

  /** All entries from nextIndex on, with the entry before them; or the snapshot, when it covers nextIndex. */
  lemma SendsAllFromNext(n: nat, run: seq<System>, events: seq<Event>, i: nat, s: int, peer: int) returns (p: Packet)
    requires IsRun(n, run, events) && i < |events| && events[i] == SendTo(s, peer)
    ensures IsServer(run[i], s) && 0 <= peer < |run[i].servers[s].nextIndex|
    ensures RightCall(run[i].servers[s], s, peer, p) && p in run[i + 1].net
  {
    assert StepAt(run, events, i);
    hide Commands, Chronicle.CommittedBy, Chronicle.Inv, NoPanic, After, RightCall, Refines;
    var c := Moment(n, run, events, i, s);
    p := SendAfter(run[i], s, peer, c.log[s]);
  }

  // ---------------------------------------------------------------------------------------------
  // What a follower makes of entries
  // ---------------------------------------------------------------------------------------------

  /** The server has the entry before the sent ones, with the sent term. */
  predicate HasBefore(sv: Server, args: AppendEntriesArgs)
  {
    sv.lastIncludedIndex <= args.prevLogIndex <= sv.LastLogIndex() && sv.TermAt(args.prevLogIndex) == args.prevLogTerm
  }

  predicate StoresAt(sv: Server, k: int, e: Entry)
  {
    sv.lastIncludedIndex < k <= sv.LastLogIndex() && sv.logs[k - sv.lastIncludedIndex] == e
  }

  /** Real index k, and every sent entry is stored. */
  ghost predicate StoresAll(sv: Server, args: AppendEntriesArgs)
  {
    forall k :: 0 <= k < |args.entries| ==> StoresAt(sv, args.prevLogIndex + 1 + k, args.entries[k])
  }

  /** Afterwards all sent entries are stored where they belong and nothing before them has changed. If all were stored
      before, the log is the same; otherwise it ends with them. The commit index follows the leader's as far as the log
      goes. */
  ghost predicate RightLog(sv: Server, args: AppendEntriesArgs, sv': Server)
  {
    && sv'.lastIncludedIndex == sv.lastIncludedIndex && sv'.disk.snapshot == sv.disk.snapshot
    && StoresAll(sv', args)
    && (forall k, e :: k <= args.prevLogIndex ==> (StoresAt(sv', k, e) <==> StoresAt(sv, k, e)))
    && (if StoresAll(sv, args) then sv'.logs == sv.logs else sv'.LastLogIndex() == args.prevLogIndex + |args.entries|)
    && sv'.commitIndex == Max(sv.commitIndex, Min(args.leaderCommit, sv'.LastLogIndex()))
    && sv'.lastApplied == sv.lastApplied
  }

  /** On full logs: the merge with the leader's log up to the last sent entry. */
  lemma MergedIsRight(sv: Server, l: seq<Entry>, sv': Server, tl: seq<Entry>, args: AppendEntriesArgs)
    requires Refines(sv, l) && Refines(sv', Merge(l, tl)) && Matching(l, tl) && sv'.lastIncludedIndex == sv.lastIncludedIndex
    requires sv.lastIncludedIndex <= args.prevLogIndex < |l| && |tl| == args.prevLogIndex + 1 + |args.entries|
    requires l[..args.prevLogIndex + 1] == tl[..args.prevLogIndex + 1] && args.entries == tl[args.prevLogIndex + 1..]
    ensures StoresAll(sv', args)
    ensures forall k, e :: k <= args.prevLogIndex ==> (StoresAt(sv', k, e) <==> StoresAt(sv, k, e))
    ensures if StoresAll(sv, args) then sv'.logs == sv.logs else sv'.LastLogIndex() == args.prevLogIndex + |args.entries|
  {
    hide Commands;
    var l', prev := Merge(l, tl), args.prevLogIndex;
    assert tl <= l';
    RefinesAt(sv, l, sv.lastIncludedIndex);
    RefinesAt(sv', l', sv.lastIncludedIndex);
    forall k | 0 <= k < |args.entries|
      ensures StoresAt(sv', prev + 1 + k, args.entries[k])
    {
      RefinesAt(sv', l', prev + 1 + k);
      assert l'[prev + 1 + k] == tl[prev + 1 + k];
    }
    forall k, e | k <= prev
      ensures StoresAt(sv', k, e) <==> StoresAt(sv, k, e)
    {
      if sv.lastIncludedIndex < k {
        RefinesAt(sv, l, k);
        RefinesAt(sv', l', k);
        assert l[k] == l[..prev + 1][k] == tl[k] == l'[k];
      }
    }
    StoredIffPrefix(sv, l, tl, args);
  }

  lemma StoredIffPrefix(sv: Server, l: seq<Entry>, tl: seq<Entry>, args: AppendEntriesArgs)
    requires Refines(sv, l) && Matching(l, tl)
    requires sv.lastIncludedIndex <= args.prevLogIndex < |l| && |tl| == args.prevLogIndex + 1 + |args.entries|
    requires l[..args.prevLogIndex + 1] == tl[..args.prevLogIndex + 1] && args.entries == tl[args.prevLogIndex + 1..]
    ensures StoresAll(sv, args) <==> tl <= l
  {
    hide Commands;
    if |args.entries| == 0 {
      assert tl == tl[..args.prevLogIndex + 1];
    } else if StoresAll(sv, args) {
      var k := |args.entries| - 1;
      assert StoresAt(sv, args.prevLogIndex + 1 + k, args.entries[k]);
      RefinesAt(sv, l, args.prevLogIndex + 1 + k);
      assert l[..|tl|] == tl[..|tl|] == tl;
    }
    if tl <= l {
      forall k | 0 <= k < |args.entries|
        ensures StoresAt(sv, args.prevLogIndex + 1 + k, args.entries[k])
      {
        RefinesAt(sv, l, args.prevLogIndex + 1 + k);
      }
    }
  }

  /** What a follower, or a leader of an older term, answers to a call of its term or a later one. */
  ghost predicate RightAnswer(sv: Server, args: AppendEntriesArgs, sv': Server, reply: AppendEntriesReply)
  {
    if args.term < sv.currentTerm then
      sv' == sv && !reply.success && reply.term == sv.currentTerm
    else
      && reply.term == sv'.currentTerm == args.term && sv'.role == Follower
      && reply.success == (sv.role != Leader && HasBefore(sv, args))
      && (if reply.success then RightLog(sv, args, sv')
          else sv'.logs == sv.logs && sv'.lastIncludedIndex == sv.lastIncludedIndex && sv'.commitIndex == sv.commitIndex
               && sv'.lastApplied == sv.lastApplied && sv'.disk.snapshot == sv.disk.snapshot)
  }

  lemma SameTerm(sv: Server, l: seq<Entry>, f: Server, args: AppendEntriesArgs)
    requires Refines(sv, l) && f.logs == sv.logs && f.lastIncludedIndex == sv.lastIncludedIndex
    ensures HasPrevious(f, args) <==> HasBefore(sv, args)
  {
    hide Commands;
    if sv.lastIncludedIndex <= args.prevLogIndex <= sv.LastLogIndex() { RefinesAt(sv, l, args.prevLogIndex); }
  }

  /** Taking the entries of a call that fits. */
  lemma TakenIsRight(f: Server, c: Chronicle, s: int, args: AppendEntriesArgs, src: int)
    requires c.Inv() && 0 <= s < c.N() && Refines(f, c.log[s]) && EntriesInv(args, c, src) && HasPrevious(f, args)
    requires 0 <= f.commitIndex + 1 <= |c.log[s]| && c.CommittedBy(args.term, c.log[s][..f.commitIndex + 1])
    ensures RightLog(f, args, TakeEntries(f, args))
  {
    hide Commands, Chronicle.CommittedBy, Chronicle.Coherent, Refines, Matching, Merge, StoresAll, StoresAt;
    var l, tl, f' := c.log[s], c.tlog[args.term][..args.prevLogIndex + 1 + |args.entries|], TakeEntries(f, args);
    CallMatches(f, c, s, args, src, tl);
    TakeEntriesRefines(f, l, args, tl);
    TakeEntriesFields(f, args);
    MergedIsRight(f, l, f', tl, args);
    MergeKeepsCommitted(c, l, args.term, |tl|, f.commitIndex + 1);
    MergedLast(f', Merge(l, tl));
  }

  lemma MergedLast(sv: Server, l: seq<Entry>)
    requires Refines(sv, l)
    ensures sv.LastLogIndex() == |l| - 1
  {
    hide Commands;
  }

  lemma AnswerIsRight(sv: Server, service: seq<Command>, c: Chronicle, s: int, args: AppendEntriesArgs, src: int)
    requires c.Inv() && 0 <= s < c.N() && CoreInv(sv, service, c, s) && EntriesInv(args, c, src)
    ensures RightAnswer(sv, args, AppendEntries(sv, args).0, AppendEntries(sv, args).1)
  {
    if args.term >= sv.currentTerm {
      hide Commands, Chronicle.CommittedBy, RightLog, TakeEntries, ConflictReply, HasBefore, HasPrevious, Refines;
      var f, l := Followed(sv, args.term), c.log[s];
      AppendEntriesCases(sv, args);
      SameTerm(sv, l, f, args);
      RefinesOnLog(sv, f, l);
      if sv.role != Leader && HasPrevious(f, args) {
        CommittedShorter(c, c.term[s], l[..sv.commitIndex + 1], l[..sv.commitIndex + 1], args.term);
        TakenIsRight(f, c, s, args, src);
        FollowedLog(sv, args, TakeEntries(f, args));
        TakenTerm(f, args);
      } else {
        assert ConflictReply(f, args).term == args.term && !ConflictReply(f, args).success by { ConflictTerm(f, args); }
      }
    }
  }

  lemma ConflictTerm(f: Server, args: AppendEntriesArgs)
    requires |f.logs| >= 1
    ensures ConflictReply(f, args).term == f.currentTerm && !ConflictReply(f, args).success
  {
  }

  lemma TakenTerm(f: Server, args: AppendEntriesArgs)
    requires HasPrevious(f, args)
    ensures TakeEntries(f, args).currentTerm == f.currentTerm && TakeEntries(f, args).role == f.role
  {
  }

  /** Taking over the term has nothing to do with the log. */
  lemma FollowedLog(sv: Server, args: AppendEntriesArgs, sv': Server)
    requires RightLog(Followed(sv, args.term), args, sv')
    ensures RightLog(sv, args, sv')
  {
    var f := Followed(sv, args.term);
    forall k, e ensures StoresAt(f, k, e) <==> StoresAt(sv, k, e) { }
    assert StoresAll(f, args) <==> StoresAll(sv, args);
  }

  lemma EntriesAfter(sys: System, p: Packet)
    requires Enabled(sys, OnEntries(p)) && NoPanic(sys, OnEntries(p))
    ensures p.EntriesRequest? && IsServer(sys, p.dst) && IsServer(After(sys, OnEntries(p)), p.dst) && |sys.servers[p.dst].logs| >= 1
    ensures var (sv', reply) := AppendEntries(sys.servers[p.dst], p.entries);
            After(sys, OnEntries(p)).servers[p.dst] == sv' && EntriesReply(p.dst, p.src, p.entries, reply) in After(sys, OnEntries(p)).net
  {
    hide AppendEntries;
  }

  /** Every AppendEntries call is answered rightly. */
  lemma EntriesAreRight(n: nat, run: seq<System>, events: seq<Event>, i: nat, p: Packet) returns (reply: AppendEntriesReply)
    requires IsRun(n, run, events) && i < |events| && events[i] == OnEntries(p) && p.EntriesRequest?
    ensures IsServer(run[i], p.dst) && IsServer(run[i + 1], p.dst) && |run[i].servers[p.dst].logs| >= 1
    ensures RightAnswer(run[i].servers[p.dst], p.entries, run[i + 1].servers[p.dst], reply)
    ensures EntriesReply(p.dst, p.src, p.entries, reply) in run[i + 1].net
    ensures reply == AppendEntries(run[i].servers[p.dst], p.entries).1
  {
    assert StepAt(run, events, i);
    hide After, NoPanic, RightAnswer, AppendEntries, Chronicle.Inv;
    EntriesAfter(run[i], p);
    var c := Moment(n, run, events, i, p.dst);
    assert PacketInv(p, c);
    AnswerIsRight(run[i].servers[p.dst], run[i].service[p.dst], c, p.dst, p.entries, p.src);
    reply := AppendEntries(run[i].servers[p.dst], p.entries).1;
  }

  // ---------------------------------------------------------------------------------------------
  // What a leader makes of the answer
  // ---------------------------------------------------------------------------------------------

  lemma AcceptanceAfter(sys: System, p: Packet)
    requires Enabled(sys, OnEntriesReply(p)) && NoPanic(sys, OnEntriesReply(p)) && p.EntriesReply?
    ensures IsServer(sys, p.dst) && IsServer(After(sys, OnEntriesReply(p)), p.dst)
    ensures 0 <= p.src < |sys.servers[p.dst].nextIndex| == |sys.servers[p.dst].matchIndex|
    ensures var sv, sv', end := sys.servers[p.dst], After(sys, OnEntriesReply(p)).servers[p.dst], p.entries.prevLogIndex + |p.entries.entries|;
            && (p.entries.term != sv.currentTerm || sv.role != Leader ==> sv' == sv)
            && (p.entries.term == sv.currentTerm && sv.role == Leader && p.entriesReply.success ==>
                  sv' == Persist(sv.(matchIndex := sv.matchIndex[p.src := end], nextIndex := sv.nextIndex[p.src := end + 1])))
            && (p.entries.term == sv.currentTerm && sv.role == Leader && !p.entriesReply.success && p.entriesReply.term > sv.currentTerm ==>
                  sv'.currentTerm == p.entriesReply.term && sv'.role == Follower && sv'.votedFor == -1 && sv'.logs == sv.logs)
  {
    hide BackedUp;
  }

  /** An acceptance moves the peer to the end of what was sent. A refusal in a later term ends the term. Anything that is
      not of this term changes nothing. */
  lemma AcceptanceAdvances(n: nat, run: seq<System>, events: seq<Event>, i: nat, p: Packet)
    requires IsRun(n, run, events) && i < |events| && events[i] == OnEntriesReply(p) && p.EntriesReply?
    ensures IsServer(run[i], p.dst) && IsServer(run[i + 1], p.dst)
    ensures 0 <= p.src < |run[i].servers[p.dst].nextIndex| == |run[i].servers[p.dst].matchIndex|
    ensures var sv, sv', end := run[i].servers[p.dst], run[i + 1].servers[p.dst], p.entries.prevLogIndex + |p.entries.entries|;
            && (p.entries.term != sv.currentTerm || sv.role != Leader ==> sv' == sv)
            && (p.entries.term == sv.currentTerm && sv.role == Leader && p.entriesReply.success ==>
                  && sv'.matchIndex == sv.matchIndex[p.src := end] && sv'.nextIndex == sv.nextIndex[p.src := end + 1]
                  && sv'.logs == sv.logs && sv'.role == Leader && sv'.currentTerm == sv.currentTerm && sv'.commitIndex == sv.commitIndex)
            && (p.entries.term == sv.currentTerm && sv.role == Leader && !p.entriesReply.success && p.entriesReply.term > sv.currentTerm ==>
                  sv'.currentTerm == p.entriesReply.term && sv'.role == Follower && sv'.votedFor == -1 && sv'.logs == sv.logs)
  {
    assert StepAt(run, events, i);
    AcceptanceAfter(run[i], p);
  }

  /** Where a leader goes on after a follower in its term refused: behind what it sent, or at its own snapshot if that
      reaches further, and never below an entry that both have up to there; only if the follower's snapshot reaches beyond
      what was sent does it go forward, to just after it. */
  ghost predicate RightBackUp(follower: Server, args: AppendEntriesArgs, leader: Server, next: int)
  {
    if args.prevLogIndex < follower.lastIncludedIndex then
      next == if follower.lastIncludedIndex < leader.lastIncludedIndex then leader.lastIncludedIndex else follower.lastIncludedIndex + 1
    else
      && (next <= args.prevLogIndex || next == leader.lastIncludedIndex)
      && forall k :: SameTermAt(follower, leader, k) && k <= args.prevLogIndex ==> k <= next
  }

  /** Terms do not fall along the log, nor from the snapshot to it, and none is negative. */
  ghost predicate Rising(sv: Server)
  {
    && |sv.logs| >= 1 && sv.logs[0].term == sv.lastIncludedTerm
    && forall i, j :: 0 <= i <= j < |sv.logs| ==> 0 <= sv.logs[i].term <= sv.logs[j].term
  }

  /** The search stops at the last entry of the term, or at the snapshot. */
  lemma {:induction false} LastOfTermFinds(s: Server, pos: int, term: int)
    requires pos <= s.LastLogIndex()
    ensures var r := LastOfTerm(s, pos, term);
            && r <= pos && (pos >= s.lastIncludedIndex ==> r >= s.lastIncludedIndex)
            && (r > s.lastIncludedIndex ==> s.logs[r - s.lastIncludedIndex].term == term)
            && (pos < s.lastIncludedIndex ==> r == pos)
            && forall k :: 0 <= r - s.lastIncludedIndex < k <= pos - s.lastIncludedIndex ==> s.logs[k].term != term
    decreases pos - s.lastIncludedIndex
  {
    if pos > s.lastIncludedIndex && s.logs[pos - s.lastIncludedIndex].term != term { LastOfTermFinds(s, pos - 1, term); }
  }

  /** The search stops at the first entry of the run of equal terms that ends at the offset. */
  lemma {:induction false} TermStartFinds(logs: seq<Entry>, offset: int, term: int)
    requires -1 <= offset < |logs|
    ensures var r := TermStart(logs, offset, term);
            && 0 <= r <= offset + 1 && (forall k :: r <= k <= offset ==> logs[k].term == term)
            && (r > 0 ==> logs[r - 1].term != term)
  {
    if offset >= 0 && logs[offset].term == term { TermStartFinds(logs, offset - 1, term); }
  }

  /** What a refusal names: where the follower's snapshot ends, where its log ends, or the term in conflict; and with a later
      term than the call's where that term begins. */
  ghost predicate RightConflict(f: Server, args: AppendEntriesArgs, reply: AppendEntriesReply)
  {
    var prev, b := args.prevLogIndex, f.lastIncludedIndex;
    if prev < b then reply.conflictTerm == -1 && reply.conflictIndex == b + 1
    else if prev > f.LastLogIndex() then reply.conflictTerm == -1 && reply.conflictIndex == f.LastLogIndex() + 1
    else
      && reply.conflictTerm == f.logs[prev - b].term != args.prevLogTerm
      && (reply.conflictTerm > args.prevLogTerm ==>
            && b <= reply.conflictIndex <= prev
            && (forall o :: reply.conflictIndex - b <= o <= prev - b ==> f.logs[o].term == reply.conflictTerm)
            && (reply.conflictIndex > b ==> f.logs[reply.conflictIndex - b - 1].term != reply.conflictTerm))
      && (reply.conflictTerm < args.prevLogTerm ==> reply.conflictIndex == prev - 1)
  }

  lemma ConflictFinds(f: Server, args: AppendEntriesArgs)
    requires |f.logs| >= 1 && !HasPrevious(f, args)
    ensures RightConflict(f, args, ConflictReply(f, args))
  {
    var prev, b := args.prevLogIndex, f.lastIncludedIndex;
    if b <= prev <= f.LastLogIndex() { TermStartFinds(f.logs, prev - b, f.logs[prev - b].term); }
  }

  lemma BackedUpRightly(leader: Server, f: Server, args: AppendEntriesArgs, reply: AppendEntriesReply, peer: int)
    requires Rising(f) && RightConflict(f, args, reply) && args.prevLogTerm >= 0
    requires Rising(leader) && 0 <= peer < |leader.nextIndex| && args.prevLogIndex <= leader.LastLogIndex()
    requires args.prevLogIndex >= leader.lastIncludedIndex ==> leader.TermAt(args.prevLogIndex) == args.prevLogTerm
    ensures RightBackUp(f, args, leader, BackedUp(leader, peer, args, reply))
  {
    LastOfTermFinds(leader, args.prevLogIndex, reply.conflictTerm);
    assert forall k :: SameTermAt(f, leader, k) ==> f.logs[k - f.lastIncludedIndex].term == leader.logs[k - leader.lastIncludedIndex].term;
  }

  lemma RunRises(sv: Server, service: seq<Command>, c: Chronicle, s: int)
    requires c.Inv() && 0 <= s < c.N() && CoreInv(sv, service, c, s)
    ensures Rising(sv)
  {
    hide Commands, Chronicle.CommittedBy;
    assert c.ServerShape(s);
    var l, b := c.log[s], sv.lastIncludedIndex;
    forall i, j | 0 <= i <= j < |sv.logs|
      ensures 0 <= sv.logs[i].term <= sv.logs[j].term
    {
      RefinesAt(sv, l, b + i);
      RefinesAt(sv, l, b + j);
    }
  }

  /** The leader of a call's term has the entry before the sent ones. */
  lemma LeaderHasBefore(leader: Server, service: seq<Command>, c: Chronicle, s: int, args: AppendEntriesArgs)
    requires c.Inv() && 0 <= s < c.N() && ServerInv(leader, service, c, s) && leader.role == Leader
    requires EntriesInv(args, c, s) && args.term == leader.currentTerm
    ensures args.prevLogIndex <= leader.LastLogIndex()
    ensures args.prevLogIndex >= leader.lastIncludedIndex ==> leader.TermAt(args.prevLogIndex) == args.prevLogTerm
  {
    hide Commands, Chronicle.CommittedBy, Chronicle.Coherent;
    RefinesAt(leader, c.log[s], |c.log[s]| - 1);
    if args.prevLogIndex >= leader.lastIncludedIndex { RefinesAt(leader, c.log[s], args.prevLogIndex); }
  }

  lemma CallTermNotNegative(c: Chronicle, args: AppendEntriesArgs, leader: int)
    requires c.Inv() && EntriesInv(args, c, leader)
    ensures args.prevLogTerm >= 0
  {
    hide Chronicle.CommittedBy;
    assert c.LeaderShape(args.term);
    assert c.tlog[args.term][0] == SENTINEL && c.tlog[args.term][0].term <= c.tlog[args.term][args.prevLogIndex].term;
  }

  /** What a follower that refuses answers. */
  lemma RefusalIsConflict(sv: Server, args: AppendEntriesArgs)
    requires |sv.logs| >= 1 && Persist(sv) == sv && sv.role != Leader && sv.currentTerm <= args.term
    requires !AppendEntries(sv, args).1.success
    ensures !HasPrevious(Followed(sv, args.term), args)
    ensures AppendEntries(sv, args).1 == ConflictReply(Followed(sv, args.term), args)
  {
    hide TakeEntries, ConflictReply, HasPrevious;
    AppendEntriesCases(sv, args);
  }

  lemma RefusalAfter(sys: System, p: Packet)
    requires Enabled(sys, OnEntriesReply(p)) && NoPanic(sys, OnEntriesReply(p)) && p.EntriesReply?
    requires p.entries.term == sys.servers[p.dst].currentTerm && sys.servers[p.dst].role == Leader
    requires !p.entriesReply.success && p.entriesReply.term <= p.entries.term
    ensures 0 <= p.src < |sys.servers[p.dst].nextIndex| && p.entries.prevLogIndex <= sys.servers[p.dst].LastLogIndex()
    ensures IsServer(After(sys, OnEntriesReply(p)), p.dst)
    ensures var sv := sys.servers[p.dst];
            After(sys, OnEntriesReply(p)).servers[p.dst]
            == sv.(nextIndex := sv.nextIndex[p.src := BackedUp(sv, p.src, p.entries, p.entriesReply)])
  {
    hide BackedUp;
  }

  /** A refusal in its own right: by a server of the call's term that has no entry where the call expects one. */
  ghost predicate Refused(f: Server, args: AppendEntriesArgs, reply: AppendEntriesReply)
  {
    && Rising(f) && f.currentTerm == args.term == reply.term && !reply.success && RightConflict(f, args, reply) && args.prevLogTerm >= 0
  }

  lemma FollowerSide(n: nat, run: seq<System>, events: seq<Event>, i: nat, p: Packet, reply: AppendEntriesReply)
    requires IsRun(n, run, events) && i < |events| && p.EntriesRequest? && events[i] == OnEntries(p)
    requires IsServer(run[i], p.dst) && |run[i].servers[p.dst].logs| >= 1 && run[i].servers[p.dst].role != Leader
    requires run[i].servers[p.dst].currentTerm <= p.entries.term
    requires reply == AppendEntries(run[i].servers[p.dst], p.entries).1 && !reply.success
    ensures Refused(Followed(run[i].servers[p.dst], p.entries.term), p.entries, reply)
  {
    assert StepAt(run, events, i);
    hide After, NoPanic, AppendEntries, Chronicle.Inv, ConflictReply, HasPrevious, EntriesInv, Stores, LeaderInv, RightConflict;
    var f := run[i].servers[p.dst];
    var c := Moment(n, run, events, i, p.dst);
    assert PacketInv(p, c);
    RefusalIsConflict(f, p.entries);
    RunRises(f, run[i].service[p.dst], c, p.dst);
    CallTermNotNegative(c, p.entries, p.src);
    ConflictFinds(Followed(f, p.entries.term), p.entries);
    ConflictTerm(Followed(f, p.entries.term), p.entries);
  }

  lemma LeaderSide(n: nat, run: seq<System>, events: seq<Event>, j: nat, answer: Packet, f: Server)
    requires IsRun(n, run, events) && j < |events| && answer.EntriesReply? && events[j] == OnEntriesReply(answer)
    requires IsServer(run[j], answer.dst) && run[j].servers[answer.dst].role == Leader
    requires run[j].servers[answer.dst].currentTerm == answer.entries.term && Refused(f, answer.entries, answer.entriesReply)
    ensures IsServer(run[j + 1], answer.dst) && 0 <= answer.src < |run[j].servers[answer.dst].nextIndex| == |run[j + 1].servers[answer.dst].nextIndex|
    ensures var leader, next := run[j].servers[answer.dst], run[j + 1].servers[answer.dst].nextIndex[answer.src];
            && run[j + 1].servers[answer.dst] == leader.(nextIndex := leader.nextIndex[answer.src := next])
            && RightBackUp(f, answer.entries, leader, next)
  {
    assert StepAt(run, events, j);
    hide After, NoPanic, Chronicle.Inv, RightBackUp, ConflictReply, HasPrevious, BackedUp, EntriesInv, Stores, LeaderInv, RightConflict;
    var s, leader := answer.dst, run[j].servers[answer.dst];
    var c := Moment(n, run, events, j, s);
    assert PacketInv(answer, c);
    LeaderHasBefore(leader, run[j].service[s], c, s, answer.entries);
    RunRises(leader, run[j].service[s], c, s);
    RefusalAfter(run[j], answer);
    BackedUpRightly(leader, f, answer.entries, answer.entriesReply, answer.src);
  }

  /** A leader that learns that a follower in its term has refused goes on for that peer where RightBackUp says. */
  lemma RefusalMovesBack(n: nat, run: seq<System>, events: seq<Event>, i: nat, j: nat, p: Packet, reply: AppendEntriesReply)
    requires IsRun(n, run, events) && i < |events| && j < |events| && p.EntriesRequest? && events[i] == OnEntries(p)
    requires IsServer(run[i], p.dst) && |run[i].servers[p.dst].logs| >= 1 && run[i].servers[p.dst].role != Leader
    requires run[i].servers[p.dst].currentTerm <= p.entries.term
    requires reply == AppendEntries(run[i].servers[p.dst], p.entries).1 && !reply.success
    requires events[j] == OnEntriesReply(EntriesReply(p.dst, p.src, p.entries, reply))
    requires IsServer(run[j], p.src) && run[j].servers[p.src].role == Leader && run[j].servers[p.src].currentTerm == p.entries.term
    ensures IsServer(run[j + 1], p.src) && 0 <= p.dst < |run[j].servers[p.src].nextIndex| == |run[j + 1].servers[p.src].nextIndex|
    ensures var leader, next := run[j].servers[p.src], run[j + 1].servers[p.src].nextIndex[p.dst];
            && run[j + 1].servers[p.src] == leader.(nextIndex := leader.nextIndex[p.dst := next])
            && RightBackUp(run[i].servers[p.dst], p.entries, leader, next)
  {
    hide Refused, AppendEntries, RightBackUp;
    FollowerSide(n, run, events, i, p, reply);
    LeaderSide(n, run, events, j, EntriesReply(p.dst, p.src, p.entries, reply), Followed(run[i].servers[p.dst], p.entries.term));
    SameBackUp(run[i].servers[p.dst], Followed(run[i].servers[p.dst], p.entries.term), p.entries, run[j].servers[p.src],
               run[j + 1].servers[p.src].nextIndex[p.dst]);
  }

  lemma SameBackUp(f: Server, g: Server, args: AppendEntriesArgs, leader: Server, next: int)
    requires f.lastIncludedIndex == g.lastIncludedIndex && f.logs == g.logs && f.lastIncludedTerm == g.lastIncludedTerm
    requires RightBackUp(g, args, leader, next)
    ensures RightBackUp(f, args, leader, next)
  {
    forall k ensures SameTermAt(f, leader, k) <==> SameTermAt(g, leader, k) { }
  }
}
