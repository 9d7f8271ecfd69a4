/** The events of log replication, commitment and compaction keep the invariant. */
module RaftReplicationSteps {
  import opened RaftEntries
  import opened RaftProtocol
  import P = RaftProtocolSteps
  import opened RaftHandlers
  import opened RaftCompaction
  import opened RaftSystem
  import opened RaftInvariant
  import opened RaftSteps

  // ---------------------------------------------------------------------------------------------
  // A follower takes entries or a snapshot
  // ---------------------------------------------------------------------------------------------

  lemma FollowersMatch(c: Chronicle, l: seq<Entry>, t: int, m: int)
    requires c.Inv() && c.Coherent(l) && t in c.tlog && 0 <= m <= |c.tlog[t]|
    ensures Matching(l, c.tlog[t][..m])
  {
    var tl := c.tlog[t];
    assert c.LeaderShape(t);
    forall i | 0 <= i < |l| && i < m && l[i].term == tl[i].term
      ensures l[..i + 1] == tl[..m][..i + 1]
    {
      LogMatching(c, l, tl, i);
      assert tl[..m][..i + 1] == tl[..i + 1];
    }
  }

  /** Merging a leader's prefix never touches what is committed by that leader's term. */
  lemma MergeKeepsCommitted(c: Chronicle, l: seq<Entry>, t: int, m: int, k: int)
    requires c.Inv() && t in c.tlog && 0 <= m <= |c.tlog[t]| && 0 <= k <= |l| && c.CommittedBy(t, l[..k])
    ensures k <= |Merge(l, c.tlog[t][..m])| && Merge(l, c.tlog[t][..m])[..k] == l[..k]
    ensures l[..k] <= c.tlog[t]
  {
    var tl := c.tlog[t][..m];
    CommittedInLeader(c, t, l[..k]);
    PrefixesComparable(l[..k], tl, c.tlog[t]);
    if m < k {
      PrefixTransitive(tl, l[..k], l);
    }
  }

  /** After following the leader of its term, before looking at the entries. */
  lemma FollowServer(sv: Server, sv': Server, service: seq<Command>, c: Chronicle, s: int, t: int) returns (c': Chronicle)
    requires c.Inv() && 0 <= s < c.N() && ServerInv(sv, service, c, s) && c.term[s] <= t
    requires SameLog(sv, sv') && sv'.Shaped() && Persist(sv') == sv' && sv'.currentTerm == t && sv'.role == Follower
    requires sv'.votedFor == if c.term[s] < t then -1 else sv.votedFor
    ensures c' == P.Bump(c, s, t) && c'.Inv() && Grows(c, c') && ServerInv(sv', service, c', s)
    ensures forall i :: 0 <= i < c.N() && i != s ==> Untouched(c, c', i)
  {
    if c.term[s] < t {
      c' := BumpServer(sv, sv', service, c, s, t);
    } else {
      c' := P.Bump(c, s, t);
      assert c' == c;
      GrowsReflexive(c);
      CoreSameLog(sv, sv', service, c, c', s);
    }
  }

  /** A server whose log became the merge with its leader's first m entries. */
  lemma AcceptServer(sv: Server, sv': Server, service: seq<Command>, service': seq<Command>, c: Chronicle, s: int, m: int)
    returns (c': Chronicle)
    requires c.Inv() && 0 <= s < c.N() && ServerInv(sv, service, c, s) && P.MayAccept(c, s, m) && sv.role != Leader
    requires sv' == sv.(logs := sv'.logs, lastIncludedIndex := sv'.lastIncludedIndex,
                        lastIncludedTerm := sv'.lastIncludedTerm,
                        lastIncludedPublicIndex := sv'.lastIncludedPublicIndex,
                        commitIndex := sv'.commitIndex, lastApplied := sv'.lastApplied, disk := sv'.disk)
    requires |sv'.logs| >= 1 && sv'.lastIncludedIndex >= 0 && Persist(sv') == sv'
    requires Stores(sv', service', Merge(c.log[s], c.tlog[c.term[s]][..m]), c, c.term[s])
    ensures c'.Inv() && Grows(c, c') && ServerInv(sv', service', c', s) && m <= c'.Acc(s, c.term[s])
    ensures forall i :: 0 <= i < c.N() && i != s ==> Untouched(c, c', i)
  {
    c' := P.Accept(c, s, m);
    P.AcceptInv(c, s, m);
    CommittedByGrows(c, c', c.term[s], c'.log[s][..sv'.commitIndex + 1]);
    assert Stores(sv', service', c'.log[s], c', c'.term[s]);
    AcceptRole(sv, sv', c, s, m);
  }

  lemma AcceptRole(sv: Server, sv': Server, c: Chronicle, s: int, m: int)
    requires c.Inv() && P.MayAccept(c, s, m) && sv.role != Leader && VoteInv(sv, c, s)
    requires sv.role == Candidate ==> CandidateInv(sv, c, s)
    requires sv'.role == sv.role && sv'.votes == sv.votes && sv'.votedFor == sv.votedFor
    ensures var c' := P.Accept(c, s, m);
            VoteInv(sv', c', s) && (sv'.role == Candidate ==> CandidateInv(sv', c', s))
    ensures forall i :: 0 <= i < c.N() && i != s ==> Untouched(c, P.Accept(c, s, m), i)
  {
  }

  /** The log of a server that has a call's previous entry matches the leader's up to the call's last entry. */
  lemma CallMatches(sv: Server, c: Chronicle, s: int, args: AppendEntriesArgs, leader: int, tl: seq<Entry>)
    requires c.Inv() && 0 <= s < c.N() && Refines(sv, c.log[s]) && EntriesInv(args, c, leader) && HasPrevious(sv, args)
    requires tl == c.tlog[args.term][..args.prevLogIndex + 1 + |args.entries|]
    ensures Matching(c.log[s], tl) && args.prevLogIndex < |c.log[s]|
    ensures c.log[s][..args.prevLogIndex + 1] == tl[..args.prevLogIndex + 1]
    ensures args.entries == tl[args.prevLogIndex + 1..]
  {
    hide Commands, Chronicle.CommittedBy, Chronicle.Coherent;
    var l, t, prev := c.log[s], args.term, args.prevLogIndex;
    assert c.ServerShape(s) && c.LeaderShape(t);
    RefinesAt(sv, l, prev);
    LogMatching(c, l, c.tlog[t], prev);
    FollowersMatch(c, l, t, |tl|);
    assert tl[..prev + 1] == c.tlog[t][..prev + 1];
  }

  /** Following a matching AppendEntries call of the leader of the server's term. */
  lemma TakeEntriesServer(sv: Server, service: seq<Command>, c: Chronicle, s: int, args: AppendEntriesArgs, leader: int)
    returns (c': Chronicle)
    requires c.Inv() && 0 <= s < c.N() && ServerInv(sv, service, c, s) && sv.role == Follower
    requires EntriesInv(args, c, leader) && args.term == c.term[s] && HasPrevious(sv, args)
    ensures c'.Inv() && Grows(c, c') && ServerInv(TakeEntries(sv, args), service, c', s)
    ensures args.prevLogIndex + |args.entries| < c'.Acc(s, args.term)
    ensures forall i :: 0 <= i < c.N() && i != s ==> Untouched(c, c', i)
  {
    hide Chronicle.Inv, Stores, EntriesInv, HasPrevious, TakeEntries, Grows, Untouched, Merge, CandidateInv, VoteInv;
    var m := args.prevLogIndex + 1 + |args.entries|;
    var sv' := TakeEntries(sv, args);
    TakenStores(sv, service, c, s, args, leader);
    assert sv' == sv.(logs := sv'.logs, commitIndex := sv'.commitIndex, disk := sv'.disk) && Persist(sv') == sv' by {
      TakeEntriesFields(sv, args);
    }
    c' := AcceptServer(sv, sv', service, service, c, s, m);
  }

  lemma TakenStores(sv: Server, service: seq<Command>, c: Chronicle, s: int, args: AppendEntriesArgs, leader: int)
    requires c.Inv() && 0 <= s < c.N() && CoreInv(sv, service, c, s)
    requires EntriesInv(args, c, leader) && args.term == c.term[s] && HasPrevious(sv, args)
    ensures Stores(TakeEntries(sv, args), service,
                   Merge(c.log[s], c.tlog[c.term[s]][..args.prevLogIndex + 1 + |args.entries|]), c, c.term[s])
    ensures P.MayAccept(c, s, args.prevLogIndex + 1 + |args.entries|)
    ensures |TakeEntries(sv, args).logs| >= 1 && TakeEntries(sv, args).lastIncludedIndex >= 0
  {
    hide TakeEntries, Commands, Merge, Chronicle.CommittedBy, HasPrevious;
    var l, t, m := c.log[s], args.term, args.prevLogIndex + 1 + |args.entries|;
    var tl := c.tlog[t][..m];
    var l' := Merge(l, tl);
    CallMatches(sv, c, s, args, leader, tl);
    TakeEntriesRefines(sv, l, args, tl);
    MergeKeepsCommitted(c, l, t, m, sv.commitIndex + 1);
    MergedStart(c, s, t, m);
    CommittedPrefixFacts(sv, service, c, s, l');
    MergedCommit(sv, service, c, s, args, leader, l');
    StoresTaken(sv, service, l, l', c, args);
    RefinesAt(TakeEntries(sv, args), l', TakeEntries(sv, args).lastIncludedIndex);
  }

  lemma StoresTaken(sv: Server, service: seq<Command>, l: seq<Entry>, l': seq<Entry>, c: Chronicle, args: AppendEntriesArgs)
    requires HasPrevious(sv, args) && Stores(sv, service, l, c, args.term) && Refines(TakeEntries(sv, args), l')
    requires sv.lastApplied < |l'| && l'[..sv.lastApplied + 1] == l[..sv.lastApplied + 1]
    requires sv.lastIncludedIndex < |l'| && l'[..sv.lastIncludedIndex + 1] == l[..sv.lastIncludedIndex + 1]
    requires var k := if args.leaderCommit > sv.commitIndex then Min(args.leaderCommit, |l'| - 1) else sv.commitIndex;
             sv.lastApplied <= k < |l'| && c.CommittedBy(args.term, l'[..k + 1])
    ensures Stores(TakeEntries(sv, args), service, l', c, args.term)
  {
    hide Commands, TakeEntries, Persist, Refines;
    TakeEntriesFields(sv, args);
    RefinesAt(TakeEntries(sv, args), l', sv.lastIncludedIndex);
  }

  lemma MergedStart(c: Chronicle, s: int, t: int, m: int)
    requires c.Inv() && 0 <= s < c.N() && t in c.tlog && 0 < m <= |c.tlog[t]|
    ensures |Merge(c.log[s], c.tlog[t][..m])| > 0 && Merge(c.log[s], c.tlog[t][..m])[0] == SENTINEL
  {
    assert c.ServerShape(s) && c.LeaderShape(t);
  }

  /** The follower's new commit index is covered: min(LeaderCommit, lastLogIndex) is safe. */
  lemma MergedCommit(sv: Server, service: seq<Command>, c: Chronicle, s: int, args: AppendEntriesArgs, leader: int, l': seq<Entry>)
    requires c.Inv() && 0 <= s < c.N() && CoreInv(sv, service, c, s)
    requires EntriesInv(args, c, leader) && args.term == c.term[s]
    requires l' == Merge(c.log[s], c.tlog[args.term][..args.prevLogIndex + 1 + |args.entries|])
    requires sv.commitIndex < |l'| && l'[..sv.commitIndex + 1] == c.log[s][..sv.commitIndex + 1]
    ensures var k := if args.leaderCommit > sv.commitIndex then Min(args.leaderCommit, |l'| - 1) else sv.commitIndex;
            sv.lastApplied <= k < |l'| && c.CommittedBy(c.term[s], l'[..k + 1])
  {
    var tl := c.tlog[args.term][..args.prevLogIndex + 1 + |args.entries|];
    assert tl <= l';
    assert l'[..args.leaderCommit + 1] == tl[..args.leaderCommit + 1] == c.tlog[args.term][..args.leaderCommit + 1];
  }

  /** A new log that extends the committed part also extends what was applied and what the snapshot covers. */
  lemma CommittedPrefixFacts(sv: Server, service: seq<Command>, c: Chronicle, s: int, l': seq<Entry>)
    requires c.Inv() && 0 <= s < c.N() && CoreInv(sv, service, c, s)
    requires sv.commitIndex < |l'| && l'[..sv.commitIndex + 1] == c.log[s][..sv.commitIndex + 1]
    requires |l'| > 0 && l'[0] == SENTINEL
    ensures l'[..sv.lastApplied + 1] == c.log[s][..sv.lastApplied + 1]
    ensures sv.lastIncludedIndex < |l'| && l'[..sv.lastIncludedIndex + 1] == c.log[s][..sv.lastIncludedIndex + 1]
  {
    var l, k := c.log[s], sv.commitIndex + 1;
    assert c.ServerShape(s);
    assert l'[..k][..sv.lastApplied + 1] == l'[..sv.lastApplied + 1];
    assert l[..k][..sv.lastApplied + 1] == l[..sv.lastApplied + 1];
    if sv.lastIncludedIndex < k {
      assert l'[..k][..sv.lastIncludedIndex + 1] == l'[..sv.lastIncludedIndex + 1];
      assert l[..k][..sv.lastIncludedIndex + 1] == l[..sv.lastIncludedIndex + 1];
    } else {
      assert l'[..1] == l[..1] == [SENTINEL];
    }
  }

  /** A rejection never sends the leader past the end of its log, even when it names the follower's own
      snapshot: what that covers is committed, so this leader has it. */
  lemma ConflictBounded(sv: Server, service: seq<Command>, c: Chronicle, s: int, args: AppendEntriesArgs, leader: int)
    requires c.Inv() && 0 <= s < c.N() && CoreInv(sv, service, c, s) && EntriesInv(args, c, leader)
    requires args.term == c.term[s] && !HasPrevious(sv, args)
    ensures var reply := ConflictReply(sv, args);
            !reply.success && reply.term == args.term && reply.conflictIndex <= |c.tlog[args.term]|
  {
    SnapshotCommitted(sv, service, c, s);
    CommittedInLeader(c, args.term, c.log[s][..sv.lastIncludedIndex + 1]);
  }

  /** The server once it has adopted the term of a call. */
  function Followed(sv: Server, term: int): Server
  {
    Persist(sv.(currentTerm := term, role := Follower,
                votedFor := if sv.currentTerm < term then -1 else sv.votedFor))
  }

  lemma AppendEntriesCases(sv: Server, args: AppendEntriesArgs)
    requires |sv.logs| >= 1 && Persist(sv) == sv && args.term >= sv.currentTerm
    ensures var f := Followed(sv, args.term);
            AppendEntries(sv, args) ==
              if sv.role == Leader then (f, AppendEntriesReply(args.term, false, args.prevLogIndex + 1, 0))
              else if HasPrevious(f, args) then (TakeEntries(f, args), AppendEntriesReply(args.term, true, 0, 0))
              else (f, ConflictReply(f, args))
  {
  }

  ghost predicate ReplyInv(reply: AppendEntriesReply, args: AppendEntriesArgs, c: Chronicle, s: int)
    requires args.term in c.tlog
  {
    && (reply.success ==> args.prevLogIndex + |args.entries| < c.Acc(s, args.term))
    && (!reply.success && reply.term <= args.term ==> reply.conflictIndex <= |c.tlog[args.term]|)
  }

  /** A follower in the call's term either takes the entries or names a conflict. */
  lemma FollowedServer(f: Server, service: seq<Command>, c: Chronicle, s: int, args: AppendEntriesArgs, src: int)
    returns (c': Chronicle)
    requires c.Inv() && 0 <= s < c.N() && ServerInv(f, service, c, s) && EntriesInv(args, c, src)
    requires f.role == Follower && args.term == c.term[s]
    ensures args.term in c'.tlog && c'.Inv() && Grows(c, c')
    ensures var (sv', reply) := if HasPrevious(f, args)
                                then (TakeEntries(f, args), AppendEntriesReply(args.term, true, 0, 0))
                                else (f, ConflictReply(f, args));
            ServerInv(sv', service, c', s) && ReplyInv(reply, args, c', s)
    ensures forall i :: 0 <= i < c.N() && i != s ==> Untouched(c, c', i)
  {
    if HasPrevious(f, args) {
      c' := TakeEntriesServer(f, service, c, s, args, src);
    } else {
      ConflictBounded(f, service, c, s, args, src);
      c' := c;
      GrowsReflexive(c);
    }
  }

  lemma EntriesServer(sv: Server, service: seq<Command>, c: Chronicle, s: int, args: AppendEntriesArgs, src: int)
    returns (c': Chronicle)
    requires c.Inv() && 0 <= s < c.N() && ServerInv(sv, service, c, s) && EntriesInv(args, c, src)
    ensures args.term in c'.tlog && c'.Inv() && Grows(c, c')
    ensures var (sv', reply) := AppendEntries(sv, args);
            ServerInv(sv', service, c', s) && ReplyInv(reply, args, c', s)
    ensures forall i :: 0 <= i < c.N() && i != s ==> Untouched(c, c', i)
  {
    GrowsReflexive(c);
    if args.term < sv.currentTerm {
      c' := c;
    } else {
      AppendEntriesCases(sv, args);
      var f := Followed(sv, args.term);
      var c1 := FollowServer(sv, f, service, c, s, args.term);
      if sv.role == Leader {
        c' := c1;
      } else {
        EntriesFrame(args, c, c1, src);
        c' := FollowedServer(f, service, c1, s, args, src);
        GrowsTransitive(c, c1, c');
        forall i | 0 <= i < c.N() && i != s ensures Untouched(c, c', i) { UntouchedTransitive(c, c1, c', i); }
      }
    }
  }

  lemma EntriesStep(sys: System, c: Chronicle, e: Event) returns (c': Chronicle)
    requires SystemInv(sys, c) && Enabled(sys, e) && NoPanic(sys, e) && e.OnEntries?
    ensures Grows(c, c') && SystemInv(After(sys, e), c')
  {
    hide Chronicle.Inv, ServerInv, Grows, Untouched, AppendEntries;
    var s, args := At(e), e.packet.entries;
    assert PacketInv(e.packet, c);
    c' := EntriesServer(sys.servers[s], sys.service[s], c, s, args, e.packet.src);
    EntriesFrame(args, c, c', e.packet.src);
    Assemble(sys, c, After(sys, e), c', s);
  }

  // ---------------------------------------------------------------------------------------------
  // A leader takes replies
  // ---------------------------------------------------------------------------------------------

  lemma EntriesReplyServer(sv: Server, service: seq<Command>, c: Chronicle, s: int, p: Packet) returns (c': Chronicle)
    requires c.Inv() && 0 <= s < c.N() && ServerInv(sv, service, c, s)
    requires p.EntriesReply? && PacketInv(p, c) && p.dst == s
    requires p.entries.term == sv.currentTerm && sv.role == Leader ==> p.entries.prevLogIndex <= sv.LastLogIndex()
    ensures c'.Inv() && Grows(c, c')
    ensures ServerInv(HandleAppendEntriesReply(sv, p.src, p.entries, p.entriesReply), service, c', s)
    ensures forall i :: 0 <= i < c.N() && i != s ==> Untouched(c, c', i)
  {
    hide Grows, Commands, CandidateInv, Chronicle.CommittedBy, LastOfTerm;
    var args, reply := p.entries, p.entriesReply;
    var sv' := HandleAppendEntriesReply(sv, p.src, args, reply);
    RefinesAt(sv, c.log[s], |c.log[s]| - 1);
    if args.term == sv.currentTerm && sv.role == Leader && !reply.success && reply.term > sv.currentTerm {
      c' := BumpServer(sv, sv', service, c, s, reply.term);
    } else {
      c' := c;
      GrowsReflexive(c);
      CoreSameLog(sv, sv', service, c, c', s);
    }
  }

  lemma EntriesReplyStep(sys: System, c: Chronicle, e: Event) returns (c': Chronicle)
    requires SystemInv(sys, c) && Enabled(sys, e) && NoPanic(sys, e) && e.OnEntriesReply?
    ensures Grows(c, c') && SystemInv(After(sys, e), c')
  {
    hide Chronicle.Inv, ServerInv, Grows, Untouched, HandleAppendEntriesReply;
    var s := At(e);
    assert PacketInv(e.packet, c);
    c' := EntriesReplyServer(sys.servers[s], sys.service[s], c, s, e.packet);
    Assemble(sys, c, After(sys, e), c', s);
  }

  lemma SnapshotReplyServer(sv: Server, service: seq<Command>, c: Chronicle, s: int, p: Packet) returns (c': Chronicle)
    requires c.Inv() && 0 <= s < c.N() && ServerInv(sv, service, c, s)
    requires p.SnapshotReply? && PacketInv(p, c) && p.dst == s
    ensures c'.Inv() && Grows(c, c')
    ensures ServerInv(HandleInstallSnapshotReply(sv, p.src, p.snapshot, p.term), service, c', s)
    ensures forall i :: 0 <= i < c.N() && i != s ==> Untouched(c, c', i)
  {
    hide Grows, Stores, CandidateInv;
    var sv' := HandleInstallSnapshotReply(sv, p.src, p.snapshot, p.term);
    if p.snapshot.term == sv.currentTerm && sv.role == Leader && p.term > sv.currentTerm {
      c' := BumpServer(sv, sv', service, c, s, p.term);
    } else {
      c' := c;
      GrowsReflexive(c);
      CoreSameLog(sv, sv', service, c, c', s);
    }
  }

  lemma SnapshotReplyStep(sys: System, c: Chronicle, e: Event) returns (c': Chronicle)
    requires SystemInv(sys, c) && Enabled(sys, e) && NoPanic(sys, e) && e.OnSnapshotReply?
    ensures Grows(c, c') && SystemInv(After(sys, e), c')
  {
    hide Chronicle.Inv, ServerInv, Grows, Untouched, HandleInstallSnapshotReply;
    var s := At(e);
    assert PacketInv(e.packet, c);
    c' := SnapshotReplyServer(sys.servers[s], sys.service[s], c, s, e.packet);
    Assemble(sys, c, After(sys, e), c', s);
  }

  // ---------------------------------------------------------------------------------------------
  // Snapshots
  // ---------------------------------------------------------------------------------------------

  /** The server after the term check of InstallSnapshot. */
  function Adopted(sv: Server, term: int): Server
  {
    if term > sv.currentTerm then StepDown(sv, term) else sv
  }

  /** The server after taking a snapshot that is ahead of its own. */
  function Installed(sv: Server, args: InstallSnapshotArgs): Server
    requires sv.lastIncludedIndex < args.lastIncludedIndex
  {
    PersistWith(sv.(logs := LogUnderSnapshot(sv, args),
                    lastIncludedIndex := args.lastIncludedIndex, lastIncludedTerm := args.lastIncludedTerm,
                    lastIncludedPublicIndex := args.lastIncludedPublicIndex,
                    commitIndex := Max(sv.commitIndex, args.lastIncludedIndex),
                    lastApplied := Max(sv.lastApplied, args.lastIncludedIndex)), args.data)
  }

  lemma InstallSnapshotCases(sv: Server, args: InstallSnapshotArgs)
    requires Persist(sv) == sv && args.term >= sv.currentTerm
    ensures var a := Adopted(sv, args.term);
            && Persist(a) == a
            && InstallSnapshot(sv, args) ==
                 if args.lastIncludedIndex <= a.lastIncludedIndex then (a, args.term, None)
                 else (Installed(a, args), args.term, Some(SnapshotMsg(args.lastIncludedPublicIndex, args.data)))
  {
  }

  /** What the service holds after the server took a snapshot, given its guard. */
  function Handed(service: seq<Command>, args: InstallSnapshotArgs): seq<Command>
  {
    if args.lastIncludedPublicIndex > |service| then args.data else service
  }

  lemma SnapshotMatches(c: Chronicle, s: int, args: InstallSnapshotArgs, src: int)
    requires c.Inv() && 0 <= s < c.N() && SnapshotInv(args, c, src)
    ensures s < |c.log| && args.term in c.tlog && 0 <= args.lastIncludedIndex < |c.tlog[args.term]|
    ensures var tl := c.tlog[args.term][..args.lastIncludedIndex + 1];
            && Matching(c.log[s], tl) && tl[args.lastIncludedIndex].term == args.lastIncludedTerm
            && args.lastIncludedPublicIndex == |Commands(tl)|
  {
    hide Commands, Chronicle.CommittedBy, Chronicle.Coherent, Matching;
    assert c.ServerShape(s);
    FollowersMatch(c, c.log[s], args.term, args.lastIncludedIndex + 1);
  }

  lemma InstalledRefines(sv: Server, service: seq<Command>, c: Chronicle, s: int, args: InstallSnapshotArgs, src: int)
    requires c.Inv() && 0 <= s < c.N() && CoreInv(sv, service, c, s) && SnapshotInv(args, c, src)
    requires args.term == c.term[s] && sv.lastIncludedIndex < args.lastIncludedIndex
    ensures Refines(Installed(sv, args), Merge(c.log[s], c.tlog[args.term][..args.lastIncludedIndex + 1]))
  {
    hide Chronicle.Inv, SnapshotInv, Commands, Merge, Chronicle.CommittedBy, LogUnderSnapshot, Refines, Matching;
    SnapshotMatches(c, s, args, src);
    var l, tl := c.log[s], c.tlog[args.term][..args.lastIncludedIndex + 1];
    LogUnderSnapshotRefines(sv, l, args, tl);
    var under := sv.(logs := LogUnderSnapshot(sv, args), lastIncludedIndex := args.lastIncludedIndex,
                     lastIncludedTerm := args.lastIncludedTerm, lastIncludedPublicIndex := args.lastIncludedPublicIndex);
    RefinesOnLog(under, Installed(sv, args), Merge(l, tl));
  }

  lemma InstalledStores(sv: Server, service: seq<Command>, c: Chronicle, s: int, args: InstallSnapshotArgs, src: int)
    requires c.Inv() && 0 <= s < c.N() && CoreInv(sv, service, c, s) && SnapshotInv(args, c, src)
    requires args.term == c.term[s] && sv.lastIncludedIndex < args.lastIncludedIndex
    ensures Stores(Installed(sv, args), Handed(service, args),
                   Merge(c.log[s], c.tlog[args.term][..args.lastIncludedIndex + 1]), c, args.term)
  {
    var l' := Merge(c.log[s], c.tlog[args.term][..args.lastIncludedIndex + 1]);
    InstalledRefines(sv, service, c, s, args, src);
    InstalledPrefix(sv, service, c, s, args, src);
    hide *;
    StoresInstalled(sv, service, c.log[s], l', c, args);
  }

  lemma InstalledPrefix(sv: Server, service: seq<Command>, c: Chronicle, s: int, args: InstallSnapshotArgs, src: int)
    requires c.Inv() && 0 <= s < c.N() && CoreInv(sv, service, c, s) && SnapshotInv(args, c, src)
    requires args.term == c.term[s] && sv.lastIncludedIndex < args.lastIncludedIndex
    ensures var l, l' := c.log[s], Merge(c.log[s], c.tlog[args.term][..args.lastIncludedIndex + 1]);
            && Stores(sv, service, l, c, args.term)
            && sv.commitIndex < |l'| && l'[..sv.commitIndex + 1] == l[..sv.commitIndex + 1]
            && l'[..sv.lastApplied + 1] == l[..sv.lastApplied + 1]
            && args.lastIncludedIndex < |l'| && c.CommittedBy(args.term, l'[..args.lastIncludedIndex + 1])
            && args.data == Commands(l'[..args.lastIncludedIndex + 1]) && args.lastIncludedPublicIndex == |args.data|
  {
    hide Commands, Merge, Chronicle.CommittedBy, P.MayAccept;
    var t, k := args.term, args.lastIncludedIndex;
    SnapshotOnTop(c, c.log[s], args, src);
    var l' := Merge(c.log[s], c.tlog[t][..k + 1]);
    hide SnapshotInv, Refines;
    MergeKeepsCommitted(c, c.log[s], t, k + 1, sv.commitIndex + 1);
    MergedStart(c, s, t, k + 1);
    hide Chronicle.Inv;
    CommittedPrefixFacts(sv, service, c, s, l');
  }

  /** The merged log starts with what the snapshot covers. */
  lemma SnapshotOnTop(c: Chronicle, l: seq<Entry>, args: InstallSnapshotArgs, src: int)
    requires SnapshotInv(args, c, src)
    ensures var l' := Merge(l, c.tlog[args.term][..args.lastIncludedIndex + 1]);
            && args.lastIncludedIndex < |l'| && c.CommittedBy(args.term, l'[..args.lastIncludedIndex + 1])
            && args.data == Commands(l'[..args.lastIncludedIndex + 1]) && args.lastIncludedPublicIndex == |args.data|
    ensures args.term in c.tlog && 0 <= args.lastIncludedIndex < |c.tlog[args.term]|
  {
    hide Commands;
    var tl := c.tlog[args.term][..args.lastIncludedIndex + 1];
    assert Merge(l, tl)[..args.lastIncludedIndex + 1] == tl;
  }

  lemma StoresInstalled(sv: Server, service: seq<Command>, l: seq<Entry>, l': seq<Entry>, c: Chronicle, args: InstallSnapshotArgs)
    requires sv.lastIncludedIndex < args.lastIncludedIndex && Stores(sv, service, l, c, args.term)
    requires Refines(Installed(sv, args), l')
    requires sv.commitIndex < |l'| && l'[..sv.commitIndex + 1] == l[..sv.commitIndex + 1]
    requires l'[..sv.lastApplied + 1] == l[..sv.lastApplied + 1]
    requires c.CommittedBy(args.term, l'[..args.lastIncludedIndex + 1])
    requires args.data == Commands(l'[..args.lastIncludedIndex + 1]) && args.lastIncludedPublicIndex == |args.data|
    ensures Stores(Installed(sv, args), Handed(service, args), l', c, args.term)
  {
    hide Commands, Chronicle.CommittedBy, LogUnderSnapshot, Handed;
    HandedMatches(service, args, l', sv.lastApplied);
  }

  /** The guarded service ends up with exactly the applied commands, however stale the snapshot is. */
  lemma HandedMatches(service: seq<Command>, args: InstallSnapshotArgs, l: seq<Entry>, applied: int)
    requires -1 <= applied < |l| && 0 <= args.lastIncludedIndex < |l|
    requires service == Commands(l[..applied + 1])
    requires args.data == Commands(l[..args.lastIncludedIndex + 1]) && args.lastIncludedPublicIndex == |args.data|
    ensures Handed(service, args) == Commands(l[..Max(applied, args.lastIncludedIndex) + 1])
  {
    if applied <= args.lastIncludedIndex {
      CommandsPrefix(l[..applied + 1], l[..args.lastIncludedIndex + 1]);
    } else {
      CommandsPrefix(l[..args.lastIncludedIndex + 1], l[..applied + 1]);
    }
  }

  lemma SnapshotAcceptable(sv: Server, service: seq<Command>, c: Chronicle, s: int, args: InstallSnapshotArgs, src: int)
    requires c.Inv() && 0 <= s < c.N() && ServerInv(sv, service, c, s) && SnapshotInv(args, c, src) && src != s
    requires args.term == c.term[s]
    ensures P.MayAccept(c, s, args.lastIncludedIndex + 1) && sv.role != Leader
    ensures |sv.logs| >= 1 && sv.lastIncludedIndex >= 0
    ensures sv.lastIncludedIndex < args.lastIncludedIndex ==> |Installed(sv, args).logs| >= 1
  {
  }

  lemma InstalledServer(sv: Server, service: seq<Command>, c: Chronicle, s: int, args: InstallSnapshotArgs, src: int)
    returns (c': Chronicle)
    requires c.Inv() && 0 <= s < c.N() && ServerInv(sv, service, c, s) && SnapshotInv(args, c, src) && src != s
    requires args.term == c.term[s]
    ensures c'.Inv() && Grows(c, c') && args.lastIncludedIndex < c'.Acc(s, args.term)
    ensures if sv.lastIncludedIndex < args.lastIncludedIndex
            then ServerInv(Installed(sv, args), Handed(service, args), c', s)
            else ServerInv(sv, service, c', s)
    ensures forall i :: 0 <= i < c.N() && i != s ==> Untouched(c, c', i)
  {
    hide Commands, Refines, Chronicle.CommittedBy;
    SnapshotAcceptable(sv, service, c, s, args, src);
    if sv.lastIncludedIndex < args.lastIncludedIndex {
      InstalledStores(sv, service, c, s, args, src);
      hide Chronicle.Inv, Stores, Handed, Grows, Untouched, Merge, CandidateInv, VoteInv, P.MayAccept, SnapshotInv, LogUnderSnapshot;
      c' := AcceptServer(sv, Installed(sv, args), service, Handed(service, args), c, s, args.lastIncludedIndex + 1);
    } else {
      AlreadyCovered(sv, service, c, s, args, src);
      hide Chronicle.Inv, Grows, Untouched, Merge, CandidateInv, VoteInv, P.MayAccept, SnapshotInv;
      c' := AcceptServer(sv, sv, service, service, c, s, args.lastIncludedIndex + 1);
    }
  }

  /** A snapshot no newer than the server's own changes nothing: the log already has what it covers. */
  lemma AlreadyCovered(sv: Server, service: seq<Command>, c: Chronicle, s: int, args: InstallSnapshotArgs, src: int)
    requires c.Inv() && 0 <= s < c.N() && CoreInv(sv, service, c, s) && SnapshotInv(args, c, src)
    requires args.term == c.term[s] && args.lastIncludedIndex <= sv.lastIncludedIndex
    ensures Merge(c.log[s], c.tlog[args.term][..args.lastIncludedIndex + 1]) == c.log[s]
  {
    var tl, covered := c.tlog[args.term], c.log[s][..sv.lastIncludedIndex + 1];
    SnapshotCommitted(sv, service, c, s);
    CommittedInLeader(c, args.term, covered);
    PrefixesComparable(tl[..args.lastIncludedIndex + 1], covered, tl);
    PrefixTransitive(tl[..args.lastIncludedIndex + 1], covered, c.log[s]);
  }

  lemma AdoptServer(sv: Server, service: seq<Command>, c: Chronicle, s: int, t: int) returns (c': Chronicle)
    requires c.Inv() && 0 <= s < c.N() && ServerInv(sv, service, c, s) && c.term[s] <= t
    ensures c'.Inv() && Grows(c, c') && c'.term[s] == t && ServerInv(Adopted(sv, t), service, c', s)
    ensures forall i :: 0 <= i < c.N() && i != s ==> Untouched(c, c', i)
  {
    if t > sv.currentTerm {
      c' := BumpServer(sv, Adopted(sv, t), service, c, s, t);
    } else {
      c' := c;
      GrowsReflexive(c);
    }
  }

  lemma AdoptAndInstall(sv: Server, service: seq<Command>, c: Chronicle, s: int, args: InstallSnapshotArgs, src: int)
    returns (c': Chronicle)
    requires c.Inv() && 0 <= s < c.N() && ServerInv(sv, service, c, s) && SnapshotInv(args, c, src) && src != s
    requires c.term[s] <= args.term
    ensures c'.Inv() && Grows(c, c') && args.lastIncludedIndex < c'.Acc(s, args.term)
    ensures var a := Adopted(sv, args.term);
            if a.lastIncludedIndex < args.lastIncludedIndex
            then ServerInv(Installed(a, args), Handed(service, args), c', s)
            else ServerInv(a, service, c', s)
    ensures forall i :: 0 <= i < c.N() && i != s ==> Untouched(c, c', i)
  {
    var c1 := AdoptServer(sv, service, c, s, args.term);
    SnapshotFrame(args, c, c1, src);
    c' := InstalledServer(Adopted(sv, args.term), service, c1, s, args, src);
    GrowsTransitive(c, c1, c');
    forall i | 0 <= i < c.N() && i != s ensures Untouched(c, c', i) { UntouchedTransitive(c, c1, c', i); }
  }

  lemma SnapshotServer(sv: Server, service: seq<Command>, c: Chronicle, s: int, args: InstallSnapshotArgs, src: int)
    returns (c': Chronicle)
    requires c.Inv() && 0 <= s < c.N() && ServerInv(sv, service, c, s) && SnapshotInv(args, c, src) && src != s
    ensures c'.Inv() && Grows(c, c')
    ensures var (sv', term, msg) := InstallSnapshot(sv, args);
            && ServerInv(sv', if msg.Some? then Handed(service, args) else service, c', s)
            && (term <= args.term ==> args.lastIncludedIndex < c'.Acc(s, args.term))
            && (msg.Some? ==> msg.value == SnapshotMsg(args.lastIncludedPublicIndex, args.data))
    ensures forall i :: 0 <= i < c.N() && i != s ==> Untouched(c, c', i)
  {
    if args.term < sv.currentTerm {
      c' := c;
      GrowsReflexive(c);
    } else {
      InstallSnapshotCases(sv, args);
      c' := AdoptAndInstall(sv, service, c, s, args, src);
    }
  }

  lemma SnapshotAfter(sys: System, e: Event)
    requires Enabled(sys, e) && NoPanic(sys, e) && e.OnSnapshot?
    requires var args := e.packet.snapshot; var msg := InstallSnapshot(sys.servers[At(e)], args).2;
             msg.Some? ==> msg.value == SnapshotMsg(args.lastIncludedPublicIndex, args.data)
    ensures var sys', s, args := After(sys, e), At(e), e.packet.snapshot;
            var (sv', term, msg) := InstallSnapshot(sys.servers[s], args);
            && sys'.servers == sys.servers[s := sv'] && sys'.delivered == sys.delivered
            && sys'.service == sys.service[s := if msg.Some? then Handed(sys.service[s], args) else sys.service[s]]
            && sys'.net == sys.net + {SnapshotReply(s, e.packet.src, args, term)}
  {
    hide InstallSnapshot;
  }

  lemma SnapshotStep(sys: System, c: Chronicle, e: Event) returns (c': Chronicle)
    requires SystemInv(sys, c) && Enabled(sys, e) && NoPanic(sys, e) && e.OnSnapshot?
    ensures Grows(c, c') && SystemInv(After(sys, e), c')
  {
    var s, args := At(e), e.packet.snapshot;
    assert PacketInv(e.packet, c) && ServerInv(sys.servers[s], sys.service[s], c, s);
    hide Chronicle.Inv, ServerInv, Grows, Untouched, InstallSnapshot, DeliveryInv, After;
    c' := SnapshotServer(sys.servers[s], sys.service[s], c, s, args, e.packet.src);
    SnapshotFrame(args, c, c', e.packet.src);
    SnapshotAfter(sys, e);
    Assemble(sys, c, After(sys, e), c', s);
  }

  /** Cutting the log at a public index the service has reached. */
  lemma SnapshotStores(sv: Server, service: seq<Command>, l: seq<Entry>, c: Chronicle, t: int, index: int)
    requires Stores(sv, service, l, c, t) && 0 <= index <= |service|
    ensures Stores(Snapshot(sv, index, service[..index]), service, l, c, t)
  {
    hide Commands, Chronicle.CommittedBy, Compact, FindCommand, Refines;
    SnapshotRefines(sv, l, index, service[..index]);
    var found := PublicToReal(sv, index);
    if found.Some? && found.value > sv.lastIncludedIndex {
      var i := found.value;
      assert 0 <= i < |l| && l[i].cmd.Some? && |Commands(l[..i + 1])| == index by { PublicToRealFinds(sv, l, index); }
      CutAtApplied(service, l, i, sv.lastApplied, index);
      var sv' := Snapshot(sv, index, service[..index]);
      assert sv'.lastIncludedIndex == i && sv'.disk.snapshot == service[..index];
      assert sv'.lastApplied == sv.lastApplied && sv'.commitIndex == sv.commitIndex;
    }
  }

  /** A cut at a public index that was applied is at an applied entry, and keeps exactly its commands. */
  lemma CutAtApplied(service: seq<Command>, l: seq<Entry>, i: int, applied: int, index: int)
    requires 0 <= i < |l| && -1 <= applied < |l| && l[i].cmd.Some? && |Commands(l[..i + 1])| == index
    requires service == Commands(l[..applied + 1]) && index <= |service|
    ensures i <= applied && service[..index] == Commands(l[..i + 1])
  {
    AppliedReaches(l, i, applied);
    CommandsPrefix(l[..i + 1], l[..applied + 1]);
  }

  lemma SnapshotFields(sv: Server, index: int, snapshot: seq<Command>)
    requires Persist(sv) == sv && |sv.logs| >= 1
    ensures var sv' := Snapshot(sv, index, snapshot);
            && sv' == sv.(logs := sv'.logs, lastIncludedIndex := sv'.lastIncludedIndex,
                          lastIncludedTerm := sv'.lastIncludedTerm,
                          lastIncludedPublicIndex := sv'.lastIncludedPublicIndex, disk := sv'.disk)
            && Persist(sv') == sv' && |sv'.logs| >= 1 && sv'.lastIncludedIndex >= sv.lastIncludedIndex
  {
  }

  lemma TakeSnapshotServer(sv: Server, service: seq<Command>, c: Chronicle, s: int, index: int)
    requires 0 <= s < c.N() == |c.log| && ServerInv(sv, service, c, s) && 0 <= index <= |service|
    ensures ServerInv(Snapshot(sv, index, service[..index]), service, c, s)
  {
    SnapshotStores(sv, service, c.log[s], c, c.term[s], index);
    SnapshotFields(sv, index, service[..index]);
    var sv' := Snapshot(sv, index, service[..index]);
    assert VoteInv(sv', c, s);
    if sv.role == Leader { assert LeaderInv(sv', c, s); }
  }

  lemma AppliedReaches(l: seq<Entry>, i: int, applied: int)
    requires 0 <= i < |l| && -1 <= applied < |l| && l[i].cmd.Some?
    requires |Commands(l[..i + 1])| <= |Commands(l[..applied + 1])|
    ensures i <= applied
  {
    if applied < i {
      CommandsStep(l, i);
      CommandsPrefix(l[..applied + 1], l[..i]);
    }
  }

  lemma TakeSnapshotStep(sys: System, c: Chronicle, e: Event) returns (c': Chronicle)
    requires SystemInv(sys, c) && Enabled(sys, e) && NoPanic(sys, e) && e.TakeSnapshot?
    ensures Grows(c, c') && SystemInv(After(sys, e), c')
  {
    c' := c;
    GrowsReflexive(c);
    TakeSnapshotServer(sys.servers[e.s], sys.service[e.s], c, e.s, e.index);
    Assemble(sys, c, After(sys, e), c', e.s);
  }

  lemma CrashStep(sys: System, c: Chronicle, e: Event) returns (c': Chronicle)
    requires SystemInv(sys, c) && Enabled(sys, e) && NoPanic(sys, e) && e.Crash?
    ensures Grows(c, c') && SystemInv(After(sys, e), c')
  {
    hide Grows, Commands, LeaderInv, Chronicle.CommittedBy;
    c' := c;
    GrowsReflexive(c);
    var sv := sys.servers[e.s];
    SnapshotCommitted(sv, sys.service[e.s], c, e.s);
    RestartRefines(sv, c.log[e.s]);
    Assemble(sys, c, After(sys, e), c', e.s);
  }

  // ---------------------------------------------------------------------------------------------
  // Commitment and delivery
  // ---------------------------------------------------------------------------------------------

  lemma {:induction false} FindCommitFinds(sv: Server, n: int)
    requires |sv.matchIndex| == sv.peers && n <= sv.LastLogIndex()
    ensures var k := FindCommit(sv, n);
            k == sv.commitIndex ||
            (&& sv.commitIndex < k <= n && sv.lastIncludedIndex < k
             && sv.logs[k - sv.lastIncludedIndex].term == sv.currentTerm && |Holders(sv, k)| * 2 > sv.peers)
    decreases n - sv.commitIndex
  {
    if n > sv.commitIndex && n > sv.lastIncludedIndex && sv.logs[n - sv.lastIncludedIndex].term == sv.currentTerm
       && |Holders(sv, n)| * 2 <= sv.peers {
      FindCommitFinds(sv, n - 1);
    }
  }

  /** The commit rule: what it counts really is a majority that accepted the entry in this leader's term.
      The unacknowledged matchIndex = lastIncludedIndex of initLeader never counts, because k is above it. */
  lemma HoldersCommit(sv: Server, service: seq<Command>, c: Chronicle, s: int, k: int)
    requires c.Inv() && 0 <= s < c.N() && ServerInv(sv, service, c, s) && sv.role == Leader
    requires sv.lastIncludedIndex < k <= sv.LastLogIndex()
    requires sv.logs[k - sv.lastIncludedIndex].term == sv.currentTerm && |Holders(sv, k)| * 2 > sv.peers
    ensures c.Committed(c.term[s], k + 1) && c.CommittedBy(c.term[s], c.log[s][..k + 1])
  {
    RefinesAt(sv, c.log[s], k);
    assert Quorum(Holders(sv, k), c.N());
    assert c.Backs(Holders(sv, k), c.term[s], k + 1);
    assert c.Marked(c.term[s], k + 1);
    assert c.Committed(c.term[s], k + 1);
  }

  lemma CommitServer(sv: Server, service: seq<Command>, c: Chronicle, s: int)
    requires c.Inv() && 0 <= s < c.N() && ServerInv(sv, service, c, s) && sv.role == Leader
    ensures ServerInv(CheckCommit(sv), service, c, s)
  {
    FindCommitFinds(sv, sv.LastLogIndex());
    var k := FindCommit(sv, sv.LastLogIndex());
    if k != sv.commitIndex {
      HoldersCommit(sv, service, c, s, k);
      CommitMoves(sv, service, c, s, k);
    }
  }

  lemma CommitMoves(sv: Server, service: seq<Command>, c: Chronicle, s: int, k: int)
    requires 0 <= s < c.N() == |c.log| && ServerInv(sv, service, c, s) && sv.commitIndex <= k <= sv.LastLogIndex()
    requires k < |c.log[s]| ==> c.CommittedBy(c.term[s], c.log[s][..k + 1])
    ensures ServerInv(sv.(commitIndex := k), service, c, s)
  {
    hide Chronicle.Inv, Commands, Chronicle.CommittedBy;
    RefinesAt(sv, c.log[s], |c.log[s]| - 1);
    var sv' := sv.(commitIndex := k);
    assert Stores(sv', service, c.log[s], c, c.term[s]);
    if sv.role == Leader { assert LeaderInv(sv', c, s); }
  }

  lemma CommitStep(sys: System, c: Chronicle, e: Event) returns (c': Chronicle)
    requires SystemInv(sys, c) && Enabled(sys, e) && NoPanic(sys, e) && e.CommitCheck?
    ensures Grows(c, c') && SystemInv(After(sys, e), c')
  {
    c' := c;
    GrowsReflexive(c);
    if sys.servers[e.s].role == Leader { CommitServer(sys.servers[e.s], sys.service[e.s], c, e.s); }
    Assemble(sys, c, After(sys, e), c', e.s);
  }

  /** The service's commands after a delivery. */
  function Took(service: seq<Command>, msg: Option<ApplyMsg>): seq<Command>
    requires msg.Some? ==> msg.value.CommandMsg?
  {
    if msg.Some? then service + [msg.value.command] else service
  }

  /** The entry that is applied next, on the full log. */
  lemma AppliedEntry(sv: Server, l: seq<Entry>)
    requires Refines(sv, l) && l[0] == SENTINEL && 0 <= sv.lastApplied + 1 - sv.lastIncludedIndex < |sv.logs|
    requires sv.lastIncludedIndex <= sv.lastApplied < sv.commitIndex || (sv.lastIncludedIndex == 0 && sv.lastApplied == -1 < sv.commitIndex)
    ensures var next, (sv', msg) := sv.lastApplied + 1, ApplyNext(sv);
            && next < |l| && sv' == Persist(sv.(lastApplied := next))
            && msg == if l[next].cmd.None? then None else Some(CommandMsg(|Commands(l[..next + 1])|, l[next].cmd.value))
  {
    hide Commands;
    var next, sv' := sv.lastApplied + 1, ApplyNext(sv).0;
    RefinesAt(sv, l, next);
    RefinesOnLog(sv, sv', l);
    if next > sv.lastIncludedIndex { RealToPublicCounts(sv', l, next); }
  }

  lemma AppliedStores(sv: Server, service: seq<Command>, l: seq<Entry>, c: Chronicle, t: int)
    requires Stores(sv, service, l, c, t) && l[0] == SENTINEL
    requires sv.lastApplied < sv.commitIndex && 0 <= sv.lastApplied + 1 - sv.lastIncludedIndex < |sv.logs|
    ensures var (sv', msg) := ApplyNext(sv);
            && (msg.Some? ==> msg.value.CommandMsg? && msg.value.index == |service| + 1)
            && Stores(sv', Took(service, msg), l, c, t)
  {
    hide Commands, Refines, Chronicle.CommittedBy, ApplyNext;
    AppliedEntry(sv, l);
    CommandsStep(l, sv.lastApplied + 1);
    RefinesOnLog(sv, ApplyNext(sv).0, l);
  }

  /** A delivery is the next entry of the committed log, under the service's next public index. */
  lemma DeliverServer(sv: Server, service: seq<Command>, c: Chronicle, s: int)
    requires c.Inv() && 0 <= s < c.N() && ServerInv(sv, service, c, s)
    requires sv.lastApplied < sv.commitIndex && 0 <= sv.lastApplied + 1 - sv.lastIncludedIndex < |sv.logs|
    ensures var (sv', msg) := ApplyNext(sv);
            && (msg.Some? ==> msg.value.CommandMsg? && msg.value.index == |service| + 1)
            && ServerInv(sv', Took(service, msg), c, s)
  {
    assert c.ServerShape(s);
    AppliedStores(sv, service, c.log[s], c, c.term[s]);
  }

  lemma DeliveredCommitted(sv: Server, service: seq<Command>, c: Chronicle, s: int, index: int, command: Command)
    requires c.Inv() && 0 <= s < c.N() && CoreInv(sv, service, c, s)
    requires 1 <= index <= |service| && service[index - 1] == command
    ensures DeliveryInv(Delivery(s, index, command), c)
  {
    var l := c.log[s];
    CommittedShorter(c, c.term[s], l[..sv.commitIndex + 1], l[..sv.lastApplied + 1], c.term[s]);
  }

  lemma DeliverStep(sys: System, c: Chronicle, e: Event) returns (c': Chronicle)
    requires SystemInv(sys, c) && Enabled(sys, e) && NoPanic(sys, e) && e.Deliver?
    ensures Grows(c, c') && SystemInv(After(sys, e), c')
  {
    hide ServerInv, Grows, Stores, Commands, Chronicle.CommittedBy, ApplyNext;
    c' := c;
    GrowsReflexive(c);
    var s := e.s;
    var (sv', msg) := ApplyNext(sys.servers[s]);
    DeliverServer(sys.servers[s], sys.service[s], c, s);
    if msg.Some? {
      DeliveredCommitted(sv', Took(sys.service[s], msg), c, s, msg.value.index, msg.value.command);
    }
    Assemble(sys, c, After(sys, e), c', s);
  }
}
