/** What the events of a run achieve, besides keeping it safe: a leader commits all that it may, Start answers the index
    under which its command is delivered, votes are granted when they should be, a refused leader moves back. */
module RaftProgress {
  import opened RaftEntries
  import opened RaftProtocol
  import opened RaftHandlers
  import opened RaftCompaction
  import opened RaftSystem
  import opened RaftInvariant
  import opened RaftSteps
  import opened RaftReplicationSteps
  import opened RaftSafety

  // ---------------------------------------------------------------------------------------------
  // Commitment
  // ---------------------------------------------------------------------------------------------

  /** All of q hold entry k, as far as the server knows. */
  ghost predicate KnownToHold(sv: Server, q: set<int>, k: int)
  {
    forall p :: p in q ==> p == sv.me || (0 <= p < |sv.matchIndex| && sv.matchIndex[p] >= k)
  }

  /** Entry k is of the server's term and known to be on a majority. */
  ghost predicate MayCommit(sv: Server, n: nat, k: int)
  {
    && sv.lastIncludedIndex < k <= sv.LastLogIndex() && sv.TermAt(k) == sv.currentTerm
    && exists q :: Quorum(q, n) && KnownToHold(sv, q, k)
  }

  /** Terms never fall along the log, and none is above the server's. */
  ghost predicate TermsRise(sv: Server)
  {
    forall i, j :: sv.lastIncludedIndex < i <= j <= sv.LastLogIndex() ==> sv.TermAt(i) <= sv.TermAt(j) <= sv.currentTerm
  }

  lemma RunTermsRise(sv: Server, service: seq<Command>, c: Chronicle, s: int)
    requires c.Inv() && 0 <= s < c.N() && CoreInv(sv, service, c, s)
    ensures TermsRise(sv)
  {
    hide Chronicle.CommittedBy, Commands;
    assert c.ServerShape(s);
    forall i, j | sv.lastIncludedIndex < i <= j <= sv.LastLogIndex()
      ensures sv.TermAt(i) <= sv.TermAt(j) <= sv.currentTerm
    {
      RefinesAt(sv, c.log[s], i);
      RefinesAt(sv, c.log[s], j);
    }
  }

  lemma HoldersMayCommit(sv: Server, k: int)
    requires sv.Shaped() && sv.lastIncludedIndex < k <= sv.LastLogIndex() && sv.TermAt(k) == sv.currentTerm
    ensures MayCommit(sv, sv.peers, k) <==> 2 * |Holders(sv, k)| > sv.peers
  {
    var h := Holders(sv, k);
    if 2 * |h| > sv.peers {
      assert Quorum(h, sv.peers) && KnownToHold(sv, h, k);
    }
    if MayCommit(sv, sv.peers, k) {
      var q :| Quorum(q, sv.peers) && KnownToHold(sv, q, k);
      SubsetSize(q, h);
    }
  }

  /** The search comes down to the largest entry that may be committed. */
  lemma {:induction false} FindCommitMax(sv: Server, m: int)
    requires sv.Shaped() && TermsRise(sv) && m <= sv.LastLogIndex()
    ensures var r := FindCommit(sv, m); r == sv.commitIndex || (r > sv.commitIndex && MayCommit(sv, sv.peers, r))
    ensures forall k :: k <= m && MayCommit(sv, sv.peers, k) ==> k <= FindCommit(sv, m)
    decreases m - sv.commitIndex
  {
    hide MayCommit;
    if m <= sv.commitIndex || m <= sv.lastIncludedIndex {
      forall k | k <= m && MayCommit(sv, sv.peers, k) ensures k <= sv.commitIndex { BeyondSnapshot(sv, k); }
    } else if sv.logs[m - sv.lastIncludedIndex].term != sv.currentTerm {
      NoneBelow(sv, m);
    } else {
      HoldersMayCommit(sv, m);
      if 2 * |Holders(sv, m)| <= sv.peers { FindCommitMax(sv, m - 1); }
    }
  }

  /** Below an entry of an earlier term there is none of the current term. */
  lemma NoneBelow(sv: Server, m: int)
    requires TermsRise(sv) && sv.lastIncludedIndex < m <= sv.LastLogIndex() && sv.TermAt(m) != sv.currentTerm
    ensures forall k :: k <= m ==> !MayCommit(sv, sv.peers, k)
  {
    forall k | sv.lastIncludedIndex < k <= m
      ensures sv.TermAt(k) < sv.currentTerm
    {
      assert sv.TermAt(k) <= sv.TermAt(m) <= sv.currentTerm;
    }
  }

  lemma BeyondSnapshot(sv: Server, k: int)
    requires MayCommit(sv, sv.peers, k)
    ensures sv.lastIncludedIndex < k <= sv.LastLogIndex() && sv.TermAt(k) == sv.currentTerm
  {
  }

  /** When a leader checks, it commits the largest entry of its term that it knows to be on a majority, if that is more
      than it had; whatever may be committed is. */
  lemma CommitsAllItMay(n: nat, run: seq<System>, events: seq<Event>, i: nat, s: int)
    requires IsRun(n, run, events) && i < |events| && events[i] == CommitCheck(s) && IsServer(run[i], s)
    ensures IsServer(run[i + 1], s)
    ensures var sv, sv' := run[i].servers[s], run[i + 1].servers[s];
            && sv' == sv.(commitIndex := sv'.commitIndex)
            && (sv'.commitIndex == sv.commitIndex || (sv.role == Leader && sv'.commitIndex > sv.commitIndex && MayCommit(sv, n, sv'.commitIndex)))
            && (sv.role == Leader ==> forall k :: MayCommit(sv, n, k) ==> k <= sv'.commitIndex)
  {
    var cs := Chronicles(n, run, events);
    ServerOf(run, cs, i, s);
    HowMany(n, run, events, cs, i);
    var sv := run[i].servers[s];
    assert StepAt(run, events, i);
    hide MayCommit, TermsRise, Chronicle.Inv, Stores, FindCommit;
    RunTermsRise(sv, run[i].service[s], cs[i], s);
    FindCommitMax(sv, sv.LastLogIndex());
    forall k | MayCommit(sv, n, k) ensures k <= sv.LastLogIndex() { BeyondSnapshot(sv, k); }
  }

  /** A run never changes the number of servers. */
  lemma HowMany(n: nat, run: seq<System>, events: seq<Event>, cs: seq<Chronicle>, i: nat)
    requires IsRun(n, run, events) && Behind(run, cs) && |cs| == |run| && i < |run|
    ensures cs[i].N() == n
  {
    assert SystemInv(run[0], cs[0]) && Grows(cs[0], cs[i]);
  }

  // ---------------------------------------------------------------------------------------------
  // Start
  // ---------------------------------------------------------------------------------------------

  lemma HoldingsAppend(sv: Server, sv': Server, command: Command)
    requires |sv.logs| >= 1 && sv'.disk.snapshot == sv.disk.snapshot && sv'.logs == sv.logs + [Entry(sv.currentTerm, Some(command))]
    ensures Holdings(sv') == Holdings(sv) + [command]
  {
    var longer := sv'.logs[1..];
    assert longer[..|longer| - 1] == sv.logs[1..];
  }

  lemma ClientAfter(sys: System, s: int, command: Command)
    requires IsServer(sys, s) && Enabled(sys, Client(s, command)) && NoPanic(sys, Client(s, command))
    ensures var sv := sys.servers[s]; |sv.logs| >= 1 && After(sys, Client(s, command)) == Put(sys, s, Start(sv, command).0)
  {
  }

  /** Start answers the number of commands that the leader then holds, of which the last is the new one, and its term;
      elsewhere it answers false and changes nothing. */
  lemma StartAnswers(n: nat, run: seq<System>, events: seq<Event>, i: nat, s: int, command: Command)
    requires IsRun(n, run, events) && i < |events| && events[i] == Client(s, command) && IsServer(run[i], s)
    ensures IsServer(run[i + 1], s) && |run[i].servers[s].logs| >= 1 && |run[i + 1].servers[s].logs| >= 1
    ensures var sv, sv', (_, index, term, isLeader) := run[i].servers[s], run[i + 1].servers[s], Start(run[i].servers[s], command);
            && isLeader == (sv.role == Leader)
            && (isLeader ==>
                  && term == sv.currentTerm == sv'.currentTerm && sv'.role == Leader && sv'.LastLogIndex() == sv.LastLogIndex() + 1
                  && sv'.TermAt(sv'.LastLogIndex()) == term && Holdings(sv') == Holdings(sv) + [command]
                  && index == |Holdings(sv')| && Holdings(sv')[index - 1] == command)
            && (!isLeader ==> index == -1 && term == -1 && run[i + 1] == run[i])
  {
    var cs := Chronicles(n, run, events);
    assert StepAt(run, events, i);
    hide After, Enabled, NoPanic, Holdings, Start, Stores, Chronicle.Inv;
    ClientAfter(run[i], s, command);
    ServerOf(run, cs, i + 1, s);
    if run[i].servers[s].role == Leader {
      LeaderStarts(run[i].servers[s], command, run[i + 1].service[s], cs[i + 1].log[s], cs[i + 1], cs[i + 1].term[s]);
    } else {
      NobodyStarts(run[i], s, command);
    }
  }

  lemma LeaderStarts(sv: Server, command: Command, service: seq<Command>, l: seq<Entry>, c: Chronicle, t: int)
    requires |sv.logs| >= 1 && sv.role == Leader && Stores(Start(sv, command).0, service, l, c, t)
    ensures var (sv', index, term, isLeader) := Start(sv, command);
            && isLeader && |sv'.logs| >= 1
            && term == sv.currentTerm == sv'.currentTerm && sv'.role == Leader && sv'.LastLogIndex() == sv.LastLogIndex() + 1
            && sv'.TermAt(sv'.LastLogIndex()) == term && Holdings(sv') == Holdings(sv) + [command]
            && index == |Holdings(sv')| && Holdings(sv')[index - 1] == command
  {
    hide Holdings, RealToPublic, Stores;
    var sv' := Start(sv, command).0;
    HoldingsAppend(sv, sv', command);
    PublicOfLast(sv', service, l, c, t);
  }

  lemma NobodyStarts(sys: System, s: int, command: Command)
    requires IsServer(sys, s) && |sys.servers[s].logs| >= 1 && sys.servers[s].role != Leader
    ensures var (_, index, term, isLeader) := Start(sys.servers[s], command); !isLeader && index == -1 && term == -1
    ensures Put(sys, s, Start(sys.servers[s], command).0) == sys
  {
  }

  lemma PublicOfLast(sv: Server, service: seq<Command>, l: seq<Entry>, c: Chronicle, t: int)
    requires Stores(sv, service, l, c, t) && |sv.logs| > 1
    ensures RealToPublic(sv, sv.LastLogIndex()) == |Holdings(sv)|
  {
    hide Commands, Chronicle.CommittedBy;
    HoldingsIsFull(sv, service, l, c, t);
    RealToPublicCounts(sv, l, |l| - 1);
    assert l[..|l| - 1 + 1] == l;
  }

  /** Server a has committed the entry of term t at real index k. */
  ghost predicate HasCommitted(a: Server, k: int, t: int)
  {
    a.lastIncludedIndex <= k <= a.LastLogIndex() && k <= a.commitIndex && a.TermAt(k) == t
  }

  /** What any server ever delivers under an index is the command with that number in any committed prefix that reaches
      so far. */
  lemma DeliveredIsCommitted(n: nat, run: seq<System>, events: seq<Event>, j: nat, s: int, k: int, m: nat, d: Delivery)
    requires IsRun(n, run, events) && j < |run| && IsServer(run[j], s) && m < |run| && d in run[m].delivered
    requires var b := run[j].servers[s];
             b.lastIncludedIndex <= k <= b.LastLogIndex() && k <= b.commitIndex && 1 <= d.index <= |UpTo(b, k)|
    ensures d.command == UpTo(run[j].servers[s], k)[d.index - 1]
  {
    var cs := Chronicles(n, run, events);
    var c := cs[|events|];
    assert SystemInv(run[m], cs[m]) && Grows(cs[m], c) && Grows(cs[j], c);
    ServerOf(run, cs, j, s);
    hide Chronicle.Inv, SystemInv, IsRun, Commands, Refines, UpTo, DeliveryInv, Chronicle.CommittedBy;
    UpToIsFull(run[j].servers[s], run[j].service[s], cs[j].log[s], cs[j], cs[j].term[s], k);
    CommittedFixes(run[j].servers[s], run[j].service[s], cs[j], s, k, cs[m], d, c);
  }

  /** The index that Start answered is the one under which the command is delivered: once any server has committed that
      entry, whatever any server ever delivers under the index is that command. */
  lemma StartedIsDelivered(n: nat, run: seq<System>, events: seq<Event>, i: nat, s: int, command: Command,
                           j: nat, s': int, m: nat, d: Delivery)
    requires IsRun(n, run, events) && i < |events| && events[i] == Client(s, command) && IsServer(run[i], s)
    requires run[i].servers[s].role == Leader && |run[i].servers[s].logs| >= 1
    requires j < |run| && IsServer(run[j], s')
    requires HasCommitted(run[j].servers[s'], run[i].servers[s].LastLogIndex() + 1, run[i].servers[s].currentTerm)
    requires m < |run| && d in run[m].delivered && d.index == Start(run[i].servers[s], command).1
    ensures d.command == command
  {
    StartAnswers(n, run, events, i, s, command);
    hide IsRun, Start, Holdings, UpTo;
    var k, a := run[i].servers[s].LastLogIndex() + 1, run[i + 1].servers[s];
    assert a.lastIncludedIndex <= k;
    LogMatchingCompacted(n, run, events, i + 1, j, s, s', k);
    UpToLast(a);
    DeliveredIsCommitted(n, run, events, j, s', k, m, d);
  }

  /** What is delivered under an index is the command with that number in any committed prefix that is long enough. */
  lemma CommittedFixes(b: Server, service: seq<Command>, cb: Chronicle, s: int, k: int, cd: Chronicle, d: Delivery, c: Chronicle)
    requires cb.Inv() && 0 <= s < cb.N() && CoreInv(b, service, cb, s) && Grows(cb, c) && c.Inv()
    requires b.lastIncludedIndex <= k <= b.commitIndex && k < |cb.log[s]| && 1 <= d.index <= |Commands(cb.log[s][..k + 1])|
    requires DeliveryInv(d, cd) && Grows(cd, c)
    ensures d.command == Commands(cb.log[s][..k + 1])[d.index - 1]
  {
    hide Commands, Refines;
    var l := cb.log[s][..k + 1];
    CommittedShorter(cb, cb.term[s], cb.log[s][..b.commitIndex + 1], l, cb.term[s]);
    CommittedByGrows(cb, c, cb.term[s], l);
    DeliveryFrame(d, cd, c);
    var t', l' :| c.CommittedBy(t', l') && 1 <= d.index <= |Commands(l')| && Commands(l')[d.index - 1] == d.command;
    CommittedComparable(c, cb.term[s], l, t', l');
    if |l| <= |l'| { CommandsPrefix(l, l'); } else { CommandsPrefix(l', l); }
  }

  lemma UpToLast(sv: Server)
    requires |sv.logs| >= 1
    ensures UpTo(sv, sv.LastLogIndex()) == Holdings(sv)
  {
    assert sv.logs[1..sv.LastLogIndex() - sv.lastIncludedIndex + 1] == sv.logs[1..];
  }
}
