/** The safety theorems of Raft with log compaction, over every run of a cluster. */
module RaftSafety {
  import opened RaftEntries
  import opened RaftProtocol
  import P = RaftProtocolSteps
  import opened RaftHandlers
  import opened RaftCompaction
  import opened RaftSystem
  import opened RaftInvariant
  import opened RaftSteps
  import opened RaftReplicationSteps

  lemma InitialSystem(n: nat)
    requires n > 0
    ensures SystemInv(Initial(n), P.Initial(n))
  {
    var sys, c := Initial(n), P.Initial(n);
    P.InitialInv(n);
    forall s | 0 <= s < n
      ensures ServerInv(sys.servers[s], sys.service[s], c, s)
    {
      SentinelCommitted(c, 1);
      assert [SENTINEL][..1] == [SENTINEL];
      assert Commands([SENTINEL]) == [] by { assert [SENTINEL][..0] == []; }
      assert Stores(sys.servers[s], [], c.log[s], c, 1);
    }
  }

  lemma Next(sys: System, c: Chronicle, e: Event) returns (c': Chronicle)
    requires SystemInv(sys, c) && Enabled(sys, e) && NoPanic(sys, e)
    ensures Grows(c, c') && SystemInv(After(sys, e), c')
  {
    hide SystemInv, After, Enabled, NoPanic, Grows;
    match e
    case Timeout(_) => c' := TimeoutStep(sys, c, e);
    case AskVote(_, _) => c' := AskVoteStep(sys, c, e);
    case OnVoteRequest(_) => c' := VoteRequestStep(sys, c, e);
    case OnVoteReply(_) => c' := VoteReplyStep(sys, c, e);
    case Win(_) => c' := WinStep(sys, c, e);
    case Client(_, _) => c' := ClientStep(sys, c, e);
    case SendTo(_, _) => c' := SendStep(sys, c, e);
    case OnEntries(_) => c' := EntriesStep(sys, c, e);
    case OnEntriesReply(_) => c' := EntriesReplyStep(sys, c, e);
    case OnSnapshot(_) => c' := SnapshotStep(sys, c, e);
    case OnSnapshotReply(_) => c' := SnapshotReplyStep(sys, c, e);
    case CommitCheck(_) => c' := CommitStep(sys, c, e);
    case Deliver(_) => c' := DeliverStep(sys, c, e);
    case TakeSnapshot(_, _) => c' := TakeSnapshotStep(sys, c, e);
    case Crash(_) => c' := CrashStep(sys, c, e);
  }

  /** cs are chronicles behind the first states of a run, each growing into every later one. */
  ghost predicate Behind(run: seq<System>, cs: seq<Chronicle>)
  {
    && |cs| <= |run|
    && (forall i :: 0 <= i < |cs| ==> SystemInv(run[i], cs[i]))
    && (forall i, j :: 0 <= i <= j < |cs| ==> Grows(cs[i], cs[j]))
  }

  lemma BehindNext(run: seq<System>, cs: seq<Chronicle>, c: Chronicle)
    requires Behind(run, cs) && 0 < |cs| < |run|
    requires SystemInv(run[|cs|], c) && Grows(cs[|cs| - 1], c) && Grows(c, c)
    ensures Behind(run, cs + [c])
  {
    forall i | 0 <= i < |cs|
      ensures Grows(cs[i], c)
    {
      GrowsTransitive(cs[i], cs[|cs| - 1], c);
    }
  }

  lemma {:induction false} ChroniclesTo(n: nat, run: seq<System>, events: seq<Event>, k: nat) returns (cs: seq<Chronicle>)
    requires IsRun(n, run, events) && k < |run|
    ensures |cs| == k + 1 && Behind(run, cs)
  {
    if k == 0 {
      InitialSystem(n);
      cs := [P.Initial(n)];
      GrowsReflexive(cs[0]);
    } else {
      cs := ChroniclesTo(n, run, events, k - 1);
      assert StepAt(run, events, k - 1);
      var c := Next(run[k - 1], cs[k - 1], events[k - 1]);
      GrowsReflexive(c);
      BehindNext(run, cs, c);
      cs := cs + [c];
    }
  }

  /** The chronicles behind all states of a run. */
  lemma Chronicles(n: nat, run: seq<System>, events: seq<Event>) returns (cs: seq<Chronicle>)
    requires IsRun(n, run, events)
    ensures |cs| == |run| && Behind(run, cs)
  {
    cs := ChroniclesTo(n, run, events, |events|);
  }

  /** One server of a state in the run. */
  lemma ServerOf(run: seq<System>, cs: seq<Chronicle>, i: nat, s: int)
    requires Behind(run, cs) && i < |cs| && IsServer(run[i], s)
    ensures cs[i].Inv() && 0 <= s < cs[i].N() && ServerInv(run[i].servers[s], run[i].service[s], cs[i], s)
    ensures Grows(cs[i], cs[|cs| - 1]) && cs[|cs| - 1].Inv()
  {
    assert SystemInv(run[i], cs[i]) && SystemInv(run[|cs| - 1], cs[|cs| - 1]);
  }

  /** Everything a server stores: the commands under its snapshot, then those of its log. */
  function Holdings(sv: Server): seq<Command>
    requires |sv.logs| >= 1
  {
    sv.disk.snapshot + Commands(sv.logs[1..])
  }

  /** The commands up to a real index at or beyond the snapshot. */
  function UpTo(sv: Server, i: int): seq<Command>
    requires sv.lastIncludedIndex <= i <= sv.LastLogIndex()
  {
    sv.disk.snapshot + Commands(sv.logs[1..i - sv.lastIncludedIndex + 1])
  }

  lemma UpToIsFull(sv: Server, service: seq<Command>, l: seq<Entry>, c: Chronicle, t: int, i: int)
    requires Stores(sv, service, l, c, t) && sv.lastIncludedIndex <= i <= sv.LastLogIndex()
    ensures i < |l| && UpTo(sv, i) == Commands(l[..i + 1])
  {
    hide Commands, Chronicle.CommittedBy;
    var b := sv.lastIncludedIndex;
    assert sv.logs[1..i - b + 1] == l[b + 1..i + 1];
    assert l[..i + 1] == l[..b + 1] + l[b + 1..i + 1];
    CommandsConcat(l[..b + 1], l[b + 1..i + 1]);
  }

  // ---------------------------------------------------------------------------------------------
  // Theorems
  // ---------------------------------------------------------------------------------------------

  /** What the index expressions of a server need. */
  ghost predicate InRange(sv: Server, n: nat, last: int)
  {
    && |sv.logs| >= 1 && sv.peers == n && |sv.nextIndex| == |sv.matchIndex| == n && sv.LastLogIndex() == last
    && (sv.lastApplied < sv.commitIndex ==> 0 <= sv.lastApplied + 1 - sv.lastIncludedIndex < |sv.logs|)
    && (sv.role == Leader ==> forall i :: 0 <= i < n ==> sv.nextIndex[i] <= last + 1)
  }

  lemma ServerInRange(sv: Server, service: seq<Command>, c: Chronicle, s: int)
    requires 0 <= s < c.N() == |c.log| && ServerInv(sv, service, c, s)
    ensures InRange(sv, c.N(), |c.log[s]| - 1)
    ensures sv.role == Leader ==> c.Leads(s) && sv.currentTerm == c.term[s]
  {
    hide Commands, Chronicle.CommittedBy;
    RefinesAt(sv, c.log[s], |c.log[s]| - 1);
  }

  lemma EventInRange(sys: System, c: Chronicle, e: Event)
    requires SystemInv(sys, c) && Enabled(sys, e)
    ensures NoPanic(sys, e)
  {
    hide ServerInv, Chronicle.CommittedBy;
    var s := At(e);
    ServerInRange(sys.servers[s], sys.service[s], c, s);
    match e
    case OnEntriesReply(p) => assert PacketInv(p, c);
    case OnSnapshotReply(p) => assert PacketInv(p, c);
    case _ =>
  }

  /** No index or slice expression is ever out of range: nextIndex, prevLogIndex, lastApplied and the
      back-up searches all stay inside the stored log, in every reachable state. */
  lemma IndexSafety(n: nat, run: seq<System>, events: seq<Event>, e: Event)
    requires IsRun(n, run, events) && Enabled(run[|events|], e)
    ensures NoPanic(run[|events|], e)
  {
    hide SystemInv, NoPanic, Enabled;
    var cs := Chronicles(n, run, events);
    EventInRange(run[|events|], cs[|events|], e);
  }

  /** Every leader's nextIndex stays within one past its log, whatever a follower answered. */
  lemma NextIndexBounded(n: nat, run: seq<System>, events: seq<Event>, i: nat, s: int, peer: int)
    requires IsRun(n, run, events) && i < |run| && IsServer(run[i], s) && IsServer(run[i], peer)
    requires run[i].servers[s].role == Leader
    ensures var sv := run[i].servers[s]; peer < |sv.nextIndex| && sv.nextIndex[peer] <= sv.LastLogIndex() + 1
  {
    var cs := Chronicles(n, run, events);
    ServerOf(run, cs, i, s);
    RefinesAt(run[i].servers[s], cs[i].log[s], |cs[i].log[s]| - 1);
    assert SystemInv(run[i], cs[i]);
  }

  /** No AppendEntries call commits more than it covers, so min(LeaderCommit, lastLogIndex) is safe for a follower. */
  lemma LeaderCommitCovered(n: nat, run: seq<System>, events: seq<Event>, i: nat, p: Packet)
    requires IsRun(n, run, events) && i < |run| && p in run[i].net && p.EntriesRequest?
    ensures -1 <= p.entries.leaderCommit <= p.entries.prevLogIndex + |p.entries.entries|
  {
    var cs := Chronicles(n, run, events);
    assert SystemInv(run[i], cs[i]);
    assert PacketInv(p, cs[i]);
  }

  /** Election Safety: at most one server is ever leader in a term, over the whole run. */
  lemma ElectionSafety(n: nat, run: seq<System>, events: seq<Event>, i: nat, j: nat, s: int, s': int)
    requires IsRun(n, run, events) && i < |run| && j < |run|
    requires IsServer(run[i], s) && IsServer(run[j], s')
    requires run[i].servers[s].role == Leader && run[j].servers[s'].role == Leader
    requires run[i].servers[s].currentTerm == run[j].servers[s'].currentTerm
    ensures s == s'
  {
    var cs := Chronicles(n, run, events);
    ServerOf(run, cs, i, s);
    ServerOf(run, cs, j, s');
  }

  /** Both servers can tell the term at real index k, and it is the same. */
  predicate SameTermAt(a: Server, b: Server, k: int)
  {
    && a.lastIncludedIndex <= k <= a.LastLogIndex() && b.lastIncludedIndex <= k <= b.LastLogIndex()
    && a.TermAt(k) == b.TermAt(k)
  }

  /** The same entry at k, as far as both store it, and the same commands up to it. */
  predicate AgreeTo(a: Server, b: Server, k: int)
    requires SameTermAt(a, b, k)
  {
    && UpTo(a, k) == UpTo(b, k)
    && (a.lastIncludedIndex < k && b.lastIncludedIndex < k ==>
          a.logs[k - a.lastIncludedIndex] == b.logs[k - b.lastIncludedIndex])
  }

  /** Log Matching over compacted logs: if two servers, at any times, hold entries of the same term at the
      same real index, they agree on that entry and on all commands up to it. */
  lemma LogMatchingCompacted(n: nat, run: seq<System>, events: seq<Event>, i: nat, j: nat, s: int, s': int, k: int)
    requires IsRun(n, run, events) && i < |run| && j < |run|
    requires IsServer(run[i], s) && IsServer(run[j], s') && SameTermAt(run[i].servers[s], run[j].servers[s'], k)
    ensures AgreeTo(run[i].servers[s], run[j].servers[s'], k)
  {
    var cs := Chronicles(n, run, events);
    ServerOf(run, cs, i, s);
    ServerOf(run, cs, j, s');
    MatchAt(run[i].servers[s], run[i].service[s], cs[i], s, run[j].servers[s'], run[j].service[s'], cs[j], s',
            cs[|events|], k);
  }

  lemma MatchAt(a: Server, aService: seq<Command>, ca: Chronicle, s: int,
                b: Server, bService: seq<Command>, cb: Chronicle, s': int, c: Chronicle, k: int)
    requires ca.Inv() && 0 <= s < ca.N() && CoreInv(a, aService, ca, s) && Grows(ca, c)
    requires cb.Inv() && 0 <= s' < cb.N() && CoreInv(b, bService, cb, s') && Grows(cb, c)
    requires SameTermAt(a, b, k)
    ensures AgreeTo(a, b, k)
  {
    var l, l' := ca.log[s], cb.log[s'];
    UpToIsFull(a, aService, l, ca, ca.term[s], k);
    UpToIsFull(b, bService, l', cb, cb.term[s'], k);
    RefinesAt(a, l, k);
    RefinesAt(b, l', k);
    EntryInLater(ca, c, s, k);
    EntryInLater(cb, c, s', k);
    SameUpTo(l, l', k, c.tlog[l[k].term]);
  }

  lemma SameUpTo(l: seq<Entry>, l': seq<Entry>, k: int, tl: seq<Entry>)
    requires 0 <= k < |l| && k < |l'| && l[..k + 1] <= tl && l'[..k + 1] <= tl
    ensures l[..k + 1] == l'[..k + 1] && l[k] == l'[k]
  {
    assert l[k] == tl[k] == l'[k];
  }

  /** What stands under an entry of term t is, now and later, what stands under it in leader t's log. */
  lemma EntryInLater(c: Chronicle, c': Chronicle, s: int, k: int)
    requires c.Inv() && Grows(c, c') && 0 <= s < c.N() && 0 <= k < |c.log[s]|
    ensures c.log[s][k].term in c'.tlog && c.log[s][..k + 1] <= c'.tlog[c.log[s][k].term]
  {
    assert c.ServerShape(s);
    var t := c.log[s][k].term;
    PrefixTransitive(c.log[s][..k + 1], c.tlog[t], c'.tlog[t]);
  }

  /** b still holds the entry at real index k that a holds: the same entry where both store it (commands, no-ops and
      terms alike), and the same term where one of them has it as its snapshot's last entry. */
  predicate KeepsEntry(a: Server, b: Server, k: int)
  {
    a.lastIncludedIndex <= k <= a.LastLogIndex() && b.lastIncludedIndex <= k ==>
      && k <= b.LastLogIndex() && a.TermAt(k) == b.TermAt(k)
      && (a.lastIncludedIndex < k && b.lastIncludedIndex < k ==>
            a.logs[k - a.lastIncludedIndex] == b.logs[k - b.lastIncludedIndex])
  }

  /** Leader Completeness: what any server has committed by a term, every leader of that or a later term
      holds from then on, in its snapshot or its log: all its commands, and entry by entry what is beyond both
      snapshots. */
  lemma LeaderCompletenessCompacted(n: nat, run: seq<System>, events: seq<Event>, i: nat, j: nat, s: int, d: int, k: int)
    requires IsRun(n, run, events) && i <= j < |run| && IsServer(run[i], s) && IsServer(run[j], d)
    requires run[j].servers[d].role == Leader && run[i].servers[s].currentTerm <= run[j].servers[d].currentTerm
    requires run[i].servers[s].lastIncludedIndex <= k <= run[i].servers[s].commitIndex
    ensures k <= run[i].servers[s].LastLogIndex() && |run[j].servers[d].logs| >= 1
    ensures UpTo(run[i].servers[s], k) <= Holdings(run[j].servers[d])
    ensures KeepsEntry(run[i].servers[s], run[j].servers[d], k)
  {
    var cs := ChroniclesTo(n, run, events, j);
    ServerOf(run, cs, i, s);
    ServerOf(run, cs, j, d);
    CommittedHeld(run[i].servers[s], run[i].service[s], cs[i], s, run[j].servers[d], run[j].service[d], cs[j], d, k);
  }

  lemma CommittedHeld(a: Server, aService: seq<Command>, ca: Chronicle, s: int,
                      b: Server, bService: seq<Command>, cb: Chronicle, d: int, k: int)
    requires ca.Inv() && 0 <= s < ca.N() && CoreInv(a, aService, ca, s) && Grows(ca, cb)
    requires cb.Inv() && 0 <= d < cb.N() && ServerInv(b, bService, cb, d) && b.role == Leader
    requires ca.term[s] <= cb.term[d] && a.lastIncludedIndex <= k <= a.commitIndex
    ensures k <= a.LastLogIndex() && UpTo(a, k) <= Holdings(b) && KeepsEntry(a, b, k)
  {
    hide Commands, Refines, Grows, Chronicle.CommittedBy;
    var l, l' := ca.log[s], cb.log[d];
    RefinesAt(a, l, |l| - 1);
    RefinesAt(a, l, k);
    UpToIsFull(a, aService, l, ca, ca.term[s], k);
    HoldingsIsFull(b, bService, l', cb, cb.term[d]);
    CommittedByGrows(ca, cb, ca.term[s], l[..a.commitIndex + 1]);
    CommittedShorter(cb, ca.term[s], l[..a.commitIndex + 1], l[..k + 1], cb.term[d]);
    CommittedInLeader(cb, cb.term[d], l[..k + 1]);
    CommandsPrefix(l[..k + 1], l');
    assert l[k] == l[..k + 1][k] == l'[k];
    if b.lastIncludedIndex <= k { RefinesAt(b, l', k); }
  }

  lemma HoldingsIsFull(sv: Server, service: seq<Command>, l: seq<Entry>, c: Chronicle, t: int)
    requires Stores(sv, service, l, c, t) && |sv.logs| >= 1
    ensures Holdings(sv) == Commands(l)
  {
    hide Commands, Chronicle.CommittedBy;
    UpToIsFull(sv, service, l, c, t, sv.LastLogIndex());
    assert sv.logs[1..] == sv.logs[1..sv.LastLogIndex() - sv.lastIncludedIndex + 1];
    assert l[..|l|] == l;
  }

  /** State Machine Safety: over the whole run, commands delivered under the same CommandIndex are equal. */
  lemma StateMachineSafety(n: nat, run: seq<System>, events: seq<Event>, i: nat, j: nat, d: Delivery, d': Delivery)
    requires IsRun(n, run, events) && i < |run| && j < |run|
    requires d in run[i].delivered && d' in run[j].delivered && d.index == d'.index
    ensures d.command == d'.command
  {
    var cs := Chronicles(n, run, events);
    var c := cs[|events|];
    assert SystemInv(run[i], cs[i]) && SystemInv(run[j], cs[j]) && SystemInv(run[|events|], c);
    assert Grows(cs[i], c) && Grows(cs[j], c);
    SameIndexSameCommand(cs[i], d, cs[j], d', c);
  }

  lemma SameIndexSameCommand(ca: Chronicle, d: Delivery, cb: Chronicle, d': Delivery, c: Chronicle)
    requires DeliveryInv(d, ca) && DeliveryInv(d', cb) && Grows(ca, c) && Grows(cb, c) && c.Inv() && d.index == d'.index
    ensures d.command == d'.command
  {
    DeliveryFrame(d, ca, c);
    DeliveryFrame(d', cb, c);
    var t, l :| c.CommittedBy(t, l) && 1 <= d.index <= |Commands(l)| && Commands(l)[d.index - 1] == d.command;
    var t', l' :| c.CommittedBy(t', l') && 1 <= d'.index <= |Commands(l')| && Commands(l')[d'.index - 1] == d'.command;
    CommittedComparable(c, t, l, t', l');
    if |l| <= |l'| { CommandsPrefix(l, l'); } else { CommandsPrefix(l', l); }
  }

  /** Each delivery carries the index that follows what the service already has: deliveries are consecutive
      from the base that the last snapshot or restart gave the service. */
  lemma DeliveriesConsecutive(n: nat, run: seq<System>, events: seq<Event>, i: nat)
    requires IsRun(n, run, events) && i < |events| && events[i].Deliver? && IsServer(run[i], events[i].s)
    ensures IsServer(run[i + 1], events[i].s)
    ensures var s, before, after := events[i].s, run[i], run[i + 1];
            || (after.service == before.service && after.delivered == before.delivered)
            || exists command ::
                 && after.service[s] == before.service[s] + [command]
                 && after.delivered == before.delivered + {Delivery(s, |before.service[s]| + 1, command)}
  {
    hide Grows, Behind, Stores, Refines, Commands, ApplyNext, SystemInv;
    var cs := Chronicles(n, run, events);
    assert StepAt(run, events, i);
    var s := events[i].s;
    ServerOf(run, cs, i, s);
    DeliverServer(run[i].servers[s], run[i].service[s], cs[i], s);
    var msg := ApplyNext(run[i].servers[s]).1;
    if msg.Some? {
      assert run[i + 1].service[s] == run[i].service[s] + [msg.value.command];
    }
  }

  /** Replicas agree: whatever two services contain, at whatever times, one is a prefix of the other. */
  lemma ServicesAgree(n: nat, run: seq<System>, events: seq<Event>, i: nat, j: nat, s: int, s': int)
    requires IsRun(n, run, events) && i < |run| && j < |run| && IsServer(run[i], s) && IsServer(run[j], s')
    ensures run[i].service[s] <= run[j].service[s'] || run[j].service[s'] <= run[i].service[s]
  {
    var cs := Chronicles(n, run, events);
    var c := cs[|events|];
    ServerOf(run, cs, i, s);
    ServerOf(run, cs, j, s');
    var l := AppliedCommitted(run[i].servers[s], run[i].service[s], cs[i], c, s);
    var l' := AppliedCommitted(run[j].servers[s'], run[j].service[s'], cs[j], c, s');
    CommittedComparable(c, cs[i].term[s], l, cs[j].term[s'], l');
    if |l| <= |l'| { CommandsPrefix(l, l'); } else { CommandsPrefix(l', l); }
  }

  lemma AppliedCommitted(sv: Server, service: seq<Command>, c: Chronicle, c': Chronicle, s: int) returns (l: seq<Entry>)
    requires c.Inv() && 0 <= s < c.N() && ServerInv(sv, service, c, s) && Grows(c, c')
    ensures c'.CommittedBy(c.term[s], l) && service == Commands(l)
  {
    l := c.log[s][..sv.lastApplied + 1];
    CommittedShorter(c, c.term[s], c.log[s][..sv.commitIndex + 1], l, c.term[s]);
    CommittedByGrows(c, c', c.term[s], l);
  }

  /** What a server does to its own log, without hearing from others. */
  datatype Local = DoSnapshot(index: int, snapshot: seq<Command>) | DoStart(command: Command) | DoRestart

  function LocalStep(sv: Server, op: Local): Server
    requires |sv.logs| >= 1
  {
    match op
    case DoSnapshot(index, snapshot) => Snapshot(sv, index, snapshot)
    case DoStart(command) => Start(sv, command).0
    case DoRestart => Restart(sv)
  }

  /** The full log behind a server, and its disk mirrors it. */
  ghost predicate Holds(sv: Server, l: seq<Entry>)
  {
    Refines(sv, l) && Persist(sv) == sv
  }

  /** Only a leader's Start makes the full log longer. */
  function FullAfter(sv: Server, l: seq<Entry>, op: Local): seq<Entry>
  {
    if op.DoStart? && sv.role == Leader then l + [Entry(sv.currentTerm, Some(op.command))] else l
  }

  lemma LocalHolds(sv: Server, l: seq<Entry>, op: Local)
    requires Holds(sv, l)
    ensures |sv.logs| >= 1 && l <= FullAfter(sv, l, op) && Holds(LocalStep(sv, op), FullAfter(sv, l, op))
    ensures sv.lastIncludedIndex <= LocalStep(sv, op).lastIncludedIndex
  {
    match op
    case DoSnapshot(index, snapshot) =>
      SnapshotRefines(sv, l, index, snapshot);
      SnapshotFields(sv, index, snapshot);
    case DoStart(command) =>
      if sv.role == Leader { RefinesAppend(sv, l, Entry(sv.currentTerm, Some(command))); }
    case DoRestart => RestartRefines(sv, l);
  }

  ghost function Locals(sv: Server, l: seq<Entry>, ops: seq<Local>): (r: (Server, seq<Entry>))
    requires Holds(sv, l)
    ensures l <= r.1 && Holds(r.0, r.1) && sv.lastIncludedIndex <= r.0.lastIncludedIndex
  {
    if |ops| == 0 then (sv, l) else
    var (sv1, l1) := Locals(sv, l, ops[..|ops| - 1]);
    LocalHolds(sv1, l1, ops[|ops| - 1]);
    (LocalStep(sv1, ops[|ops| - 1]), FullAfter(sv1, l1, ops[|ops| - 1]))
  }

  /** Public indices are stable: whatever sequence of Snapshot, Start and restart a server goes through, every entry
      of the old log that is still beyond the snapshot has the public index it had, and is still found by it. */
  lemma PublicIndexStable(sv: Server, l: seq<Entry>, ops: seq<Local>, i: int)
    requires Holds(sv, l) && Locals(sv, l, ops).0.lastIncludedIndex < i < |l|
    ensures var sv' := Locals(sv, l, ops).0;
            && |sv.logs| >= 1 && |sv'.logs| >= 1 && RealToPublic(sv', i) == RealToPublic(sv, i)
            && (l[i].cmd.Some? ==> PublicToReal(sv', RealToPublic(sv, i)) == Some(i))
  {
    var (sv', l') := Locals(sv, l, ops);
    RealToPublicCounts(sv, l, i);
    RealToPublicCounts(sv', l', i);
    assert l[..i + 1] == l'[..i + 1];
    if l[i].cmd.Some? { PublicRealInverse(sv', l', i); }
  }
}
