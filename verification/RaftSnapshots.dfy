/** What snapshots do in a run: one that a service takes cuts the log just behind the commands it contains, one that a
    leader sends is put in place of what it covers; and one entry at a time is applied. */
module RaftSnapshots {
  import opened RaftEntries
  import opened RaftProtocol
  import opened RaftHandlers
  import opened RaftCompaction
  import opened RaftSystem
  import opened RaftInvariant
  import opened RaftSteps
  import opened RaftReplicationSteps
  import opened RaftSafety
  import opened RaftAnswers

  // ---------------------------------------------------------------------------------------------
  // Taking a snapshot
  // ---------------------------------------------------------------------------------------------

  /** The log ends behind the index-th command; what is beyond it stays, and so does everything else. */
  ghost predicate CutBehind(sv: Server, service: seq<Command>, index: int, sv': Server)
    requires 0 < index <= |service|
  {
    var b := sv'.lastIncludedIndex;
    && sv'.lastIncludedPublicIndex == index && sv'.disk.snapshot == service[..index]
    && StoresAt(sv, b, Entry(sv'.lastIncludedTerm, Some(service[index - 1])))
    && sv'.LastLogIndex() == sv.LastLogIndex() && |sv'.logs| < |sv.logs|
    && (forall k, e :: k > b ==> (StoresAt(sv', k, e) <==> StoresAt(sv, k, e)))
    && sv'.currentTerm == sv.currentTerm && sv'.role == sv.role && sv'.commitIndex == sv.commitIndex && sv'.lastApplied == sv.lastApplied
  }

  lemma SnapshotFound(sv: Server, service: seq<Command>, l: seq<Entry>, c: Chronicle, t: int, index: int)
    requires Stores(sv, service, l, c, t) && sv.lastIncludedPublicIndex < index <= |service|
    ensures match PublicToReal(sv, index)
            case Some(b) => && sv.lastIncludedIndex < b < |l| && l[b].cmd == Some(service[index - 1])
            case None => false
  {
    hide Chronicle.CommittedBy;
    PublicToRealFinds(sv, l, index);
    CommandsPrefix(l[..sv.lastApplied + 1], l);
    var b := PublicToReal(sv, index).value;
    assert b != sv.lastIncludedIndex;
    CommandsStep(l, b);
    CutAtApplied(service, l, b, sv.lastApplied, index);
    assert Commands(l[..b + 1])[index - 1] == service[..index][index - 1];
  }

  lemma SnapshotCuts(sv: Server, service: seq<Command>, l: seq<Entry>, c: Chronicle, t: int, index: int)
    requires Stores(sv, service, l, c, t) && sv.lastIncludedPublicIndex < index <= |service| && |sv.logs| >= 1
    ensures index > 0 && CutBehind(sv, service, index, Snapshot(sv, index, service[..index]))
  {
    SnapshotFound(sv, service, l, c, t, index);
    hide Commands, Chronicle.CommittedBy, PublicToReal;
    var sv', b := Snapshot(sv, index, service[..index]), PublicToReal(sv, index).value;
    RefinesAt(sv, l, b);
    forall k, e | k > b
      ensures StoresAt(sv', k, e) <==> StoresAt(sv, k, e)
    {
    }
  }

  lemma TakeAfter(sys: System, s: int, index: int)
    requires Enabled(sys, TakeSnapshot(s, index)) && NoPanic(sys, TakeSnapshot(s, index))
    ensures IsServer(sys, s) && 0 <= index <= |sys.service[s]| && |sys.servers[s].logs| >= 1
    ensures After(sys, TakeSnapshot(s, index)) == Put(sys, s, Snapshot(sys.servers[s], index, sys.service[s][..index]))
  {
  }

  lemma NothingToCut(sv: Server, index: int, snapshot: seq<Command>)
    requires |sv.logs| >= 1 && index <= sv.lastIncludedPublicIndex
    ensures Snapshot(sv, index, snapshot) == sv
  {
  }

  /** A snapshot with more commands than the server's own takes its place; any other changes nothing. */
  lemma SnapshotTaken(n: nat, run: seq<System>, events: seq<Event>, i: nat, s: int, index: int)
    requires IsRun(n, run, events) && i < |events| && events[i] == TakeSnapshot(s, index)
    ensures IsServer(run[i], s) && IsServer(run[i + 1], s) && run[i + 1].service == run[i].service
    ensures var sv, sv', service := run[i].servers[s], run[i + 1].servers[s], run[i].service[s];
            if index <= sv.lastIncludedPublicIndex then sv' == sv
            else 0 < index <= |service| && CutBehind(sv, service, index, sv')
  {
    assert StepAt(run, events, i);
    hide Chronicle.Inv, After, NoPanic, Enabled, Snapshot, Stores, CutBehind;
    TakeAfter(run[i], s, index);
    var c := Moment(n, run, events, i, s);
    if index <= run[i].servers[s].lastIncludedPublicIndex {
      NothingToCut(run[i].servers[s], index, run[i].service[s][..index]);
    } else {
      SnapshotCuts(run[i].servers[s], run[i].service[s], c.log[s], c, c.term[s], index);
    }
  }

  // ---------------------------------------------------------------------------------------------
  // Installing a snapshot
  // ---------------------------------------------------------------------------------------------

  /** The server has the entry at the snapshot's end, with its term. */
  predicate HasBoundary(sv: Server, args: InstallSnapshotArgs)
  {
    sv.lastIncludedIndex < args.lastIncludedIndex <= sv.LastLogIndex() && sv.TermAt(args.lastIncludedIndex) == args.lastIncludedTerm
  }

  /** The snapshot replaces what it covers. The log beyond it stays if the server had the entry at its end, and is dropped
      if not; both indices are at least at its end, and the service has at least its commands. */
  ghost predicate InPlace(sv: Server, service: seq<Command>, args: InstallSnapshotArgs, sv': Server, service': seq<Command>)
  {
    && sv'.lastIncludedIndex == args.lastIncludedIndex && sv'.lastIncludedTerm == args.lastIncludedTerm
    && sv'.lastIncludedPublicIndex == args.lastIncludedPublicIndex == |args.data| && sv'.disk.snapshot == args.data
    && sv'.LastLogIndex() == (if HasBoundary(sv, args) then sv.LastLogIndex() else args.lastIncludedIndex)
    && (forall k, e :: StoresAt(sv', k, e) <==> HasBoundary(sv, args) && k > args.lastIncludedIndex && StoresAt(sv, k, e))
    && sv'.commitIndex == Max(sv.commitIndex, args.lastIncludedIndex) && sv'.lastApplied == Max(sv.lastApplied, args.lastIncludedIndex)
    && service' == (if |service| < |args.data| then args.data else service)
  }

  /** What a server makes of an InstallSnapshot call. */
  ghost predicate RightInstall(sv: Server, service: seq<Command>, args: InstallSnapshotArgs, sv': Server, service': seq<Command>, term: int)
  {
    if args.term < sv.currentTerm then sv' == sv && service' == service && term == sv.currentTerm
    else
      && sv'.currentTerm == term == args.term && (args.term > sv.currentTerm ==> sv'.role == Follower && sv'.votedFor == -1)
      && (if args.lastIncludedIndex <= sv.lastIncludedIndex then
            && service' == service && sv'.logs == sv.logs && sv'.lastIncludedIndex == sv.lastIncludedIndex
            && sv'.commitIndex == sv.commitIndex && sv'.lastApplied == sv.lastApplied && sv'.disk.snapshot == sv.disk.snapshot
          else InPlace(sv, service, args, sv', service'))
  }

  lemma KeptUnder(sv: Server, l: seq<Entry>, args: InstallSnapshotArgs)
    requires Refines(sv, l) && sv.lastIncludedIndex < args.lastIncludedIndex
    ensures var logs := LogUnderSnapshot(sv, args);
            && |logs| >= 1
            && args.lastIncludedIndex + |logs| - 1 == (if HasBoundary(sv, args) then sv.LastLogIndex() else args.lastIncludedIndex)
            && forall o :: 0 < o < |logs| ==> logs[o] == sv.logs[o + args.lastIncludedIndex - sv.lastIncludedIndex]
  {
    hide Commands;
    if args.lastIncludedIndex <= sv.LastLogIndex() { RefinesAt(sv, l, args.lastIncludedIndex); }
  }

  lemma InstalledInPlace(sv: Server, service: seq<Command>, l: seq<Entry>, c: Chronicle, t: int, args: InstallSnapshotArgs, sv': Server)
    requires Stores(sv, service, l, c, t) && sv.lastIncludedIndex < args.lastIncludedIndex && args.lastIncludedPublicIndex == |args.data|
    requires sv' == Installed(sv, args)
    ensures InPlace(sv, service, args, sv', Handed(service, args))
  {
    hide Commands, Chronicle.CommittedBy, LogUnderSnapshot;
    KeptUnder(sv, l, args);
    forall k, e
      ensures StoresAt(sv', k, e) <==> HasBoundary(sv, args) && k > args.lastIncludedIndex && StoresAt(sv, k, e)
    {
    }
  }

  lemma AdoptedInPlace(sv: Server, service: seq<Command>, args: InstallSnapshotArgs, term: int, sv': Server, service': seq<Command>)
    requires |sv.logs| >= 1 && InPlace(Adopted(sv, term), service, args, sv', service')
    ensures InPlace(sv, service, args, sv', service')
  {
    var a := Adopted(sv, term);
    forall k, e ensures StoresAt(a, k, e) <==> StoresAt(sv, k, e) { }
    assert HasBoundary(a, args) <==> HasBoundary(sv, args);
  }

  lemma InstallIsRight(sv: Server, service: seq<Command>, c: Chronicle, s: int, args: InstallSnapshotArgs, src: int)
    requires c.Inv() && 0 <= s < c.N() && CoreInv(sv, service, c, s) && SnapshotInv(args, c, src)
    ensures var (sv', term, msg) := InstallSnapshot(sv, args);
            && RightInstall(sv, service, args, sv', if msg.Some? then Handed(service, args) else service, term)
            && (msg.Some? ==> msg.value == SnapshotMsg(args.lastIncludedPublicIndex, args.data))
  {
    hide Commands, Chronicle.CommittedBy, InPlace, LogUnderSnapshot, Refines;
    if args.term >= sv.currentTerm {
      InstallSnapshotCases(sv, args);
      hide InstallSnapshot;
      var a := Adopted(sv, args.term);
      if args.lastIncludedIndex > sv.lastIncludedIndex {
        StoresAdopted(sv, service, c.log[s], c, c.term[s], args.term);
        InstalledInPlace(a, service, c.log[s], c, c.term[s], args, Installed(a, args));
        AdoptedInPlace(sv, service, args, args.term, Installed(a, args), Handed(service, args));
      }
    }
  }

  lemma StoresAdopted(sv: Server, service: seq<Command>, l: seq<Entry>, c: Chronicle, t: int, term: int)
    requires Stores(sv, service, l, c, t)
    ensures Stores(Adopted(sv, term), service, l, c, t)
  {
    hide Commands, Chronicle.CommittedBy, Refines;
    RefinesOnLog(sv, Adopted(sv, term), l);
  }

  /** Every InstallSnapshot call is handled rightly. */
  lemma SnapshotsAreRight(n: nat, run: seq<System>, events: seq<Event>, i: nat, p: Packet) returns (term: int)
    requires IsRun(n, run, events) && i < |events| && events[i] == OnSnapshot(p) && p.SnapshotRequest?
    ensures IsServer(run[i], p.dst) && IsServer(run[i + 1], p.dst)
    ensures RightInstall(run[i].servers[p.dst], run[i].service[p.dst], p.snapshot, run[i + 1].servers[p.dst], run[i + 1].service[p.dst], term)
    ensures SnapshotReply(p.dst, p.src, p.snapshot, term) in run[i + 1].net
  {
    assert StepAt(run, events, i);
    hide Chronicle.Inv, After, NoPanic, InstallSnapshot, Stores, RightInstall, SnapshotInv;
    var c := Moment(n, run, events, i, p.dst);
    assert PacketInv(p, c);
    InstallIsRight(run[i].servers[p.dst], run[i].service[p.dst], c, p.dst, p.snapshot, p.src);
    SnapshotAfter(run[i], events[i]);
    term := InstallSnapshot(run[i].servers[p.dst], p.snapshot).1;
  }

  /** A leader that learns of it goes on just after the snapshot for that peer, or leaves a term that has ended. */
  lemma SnapshotAcknowledged(n: nat, run: seq<System>, events: seq<Event>, i: nat, p: Packet)
    requires IsRun(n, run, events) && i < |events| && events[i] == OnSnapshotReply(p) && p.SnapshotReply?
    ensures IsServer(run[i], p.dst) && IsServer(run[i + 1], p.dst)
    ensures 0 <= p.src < |run[i].servers[p.dst].nextIndex| == |run[i].servers[p.dst].matchIndex|
    ensures var sv, sv', b := run[i].servers[p.dst], run[i + 1].servers[p.dst], p.snapshot.lastIncludedIndex;
            if p.snapshot.term != sv.currentTerm || sv.role != Leader then sv' == sv
            else if p.term > sv.currentTerm then sv'.currentTerm == p.term && sv'.role == Follower && sv'.votedFor == -1 && sv'.logs == sv.logs
            else sv' == sv.(matchIndex := sv.matchIndex[p.src := b], nextIndex := sv.nextIndex[p.src := b + 1])
  {
    assert StepAt(run, events, i);
  }

  /** A server that restarts has the term, the vote, the log and the snapshot it had, and has applied and committed just
      what the snapshot covers. */
  lemma RestartKeeps(n: nat, run: seq<System>, events: seq<Event>, i: nat, s: int)
    requires IsRun(n, run, events) && i < |events| && events[i] == Crash(s)
    ensures IsServer(run[i], s) && IsServer(run[i + 1], s)
    ensures var sv, sv' := run[i].servers[s], run[i + 1].servers[s];
            && sv'.currentTerm == sv.currentTerm && sv'.votedFor == sv.votedFor && sv'.logs == sv.logs && sv'.role == Follower
            && sv'.lastIncludedIndex == sv.lastIncludedIndex && sv'.lastIncludedTerm == sv.lastIncludedTerm
            && sv'.lastIncludedPublicIndex == sv.lastIncludedPublicIndex && sv'.disk == sv.disk
            && sv'.commitIndex == sv'.lastApplied == sv.lastIncludedIndex && run[i + 1].service[s] == sv.disk.snapshot
  {
    assert StepAt(run, events, i);
    hide Chronicle.Inv, Stores;
    var c := Moment(n, run, events, i, s);
  }

  // ---------------------------------------------------------------------------------------------
  // Applying
  // ---------------------------------------------------------------------------------------------

  /** What one turn of the apply loop leaves, for the entry that is next. */
  ghost predicate AppliedOne(sys: System, s: int, sys': System)
    requires IsServer(sys, s) && IsServer(sys', s)
  {
    var sv, sv', before, after := sys.servers[s], sys'.servers[s], sys.service[s], sys'.service[s];
    var next := sv.lastApplied + 1;
    && next <= sv.commitIndex && 0 <= next - sv.lastIncludedIndex < |sv.logs| && sv'.lastApplied == next
    && sv'.logs == sv.logs && sv'.commitIndex == sv.commitIndex && sv'.lastIncludedIndex == sv.lastIncludedIndex
    && match sv.logs[next - sv.lastIncludedIndex].cmd
       case None => after == before && sys'.delivered == sys.delivered
       case Some(command) => after == before + [command] && sys'.delivered == sys.delivered + {Delivery(s, |after|, command)}
  }

  lemma DeliverAfter(sys: System, s: int)
    requires Enabled(sys, Deliver(s)) && NoPanic(sys, Deliver(s))
    requires var msg := ApplyNext(sys.servers[s]).1; msg.Some? ==> msg.value.CommandMsg? && msg.value.index == |sys.service[s]| + 1
    ensures IsServer(sys, s) && IsServer(After(sys, Deliver(s)), s) && AppliedOne(sys, s, After(sys, Deliver(s)))
  {
    hide RealToPublic;
  }

  /** The next entry is applied: lastApplied goes up by one, and exactly an entry with a command is handed to the service,
      under the number of commands that the service then has. */
  lemma AppliesNext(n: nat, run: seq<System>, events: seq<Event>, i: nat, s: int)
    requires IsRun(n, run, events) && i < |events| && events[i] == Deliver(s)
    ensures IsServer(run[i], s) && IsServer(run[i + 1], s) && AppliedOne(run[i], s, run[i + 1])
  {
    assert StepAt(run, events, i);
    hide Chronicle.Inv, ServerInv, ApplyNext, AppliedOne, After, NoPanic;
    var c := Moment(n, run, events, i, s);
    NextInRange(run[i], s);
    DeliverServer(run[i].servers[s], run[i].service[s], c, s);
    DeliverAfter(run[i], s);
  }

  lemma NextInRange(sys: System, s: int)
    requires Enabled(sys, Deliver(s)) && NoPanic(sys, Deliver(s))
    ensures IsServer(sys, s)
    ensures var sv := sys.servers[s]; sv.lastApplied < sv.commitIndex && 0 <= sv.lastApplied + 1 - sv.lastIncludedIndex < |sv.logs|
  {
  }
}
