/** Handing an installed snapshot to the service. InstallSnapshot hands over every snapshot ahead of the
    server's own, also one that is behind what was already applied, while lastApplied never moves back.
    The sharded service ignores such a snapshot; the plain key-value service replaces its state by it. */
module RaftHandover {
  import opened RaftEntries
  import opened RaftProtocol
  import opened RaftHandlers
  import opened RaftCompaction
  import opened RaftSystem
  import opened RaftInvariant
  import opened RaftSteps
  import opened RaftReplicationSteps
  import opened RaftSafety

  /** The commands a service without the guard contains after a hand-over. */
  function Unguarded(service: seq<Command>, msg: ApplyMsg): seq<Command>
  {
    match msg
    case CommandMsg(_, command) => service + [command]
    case SnapshotMsg(_, data) => data
  }

  /** Exactly when replacing the state is right: the service must not be ahead of the snapshot. */
  lemma UnguardedExactly(n: nat, run: seq<System>, events: seq<Event>, i: nat, s: int, args: InstallSnapshotArgs)
    requires IsRun(n, run, events) && i < |events| && IsServer(run[i], s)
    requires events[i].OnSnapshot? && events[i].packet.SnapshotRequest? && events[i].packet.dst == s
    requires events[i].packet.snapshot == args && InstallSnapshot(run[i].servers[s], args).2.Some?
    ensures IsServer(run[i + 1], s)
    ensures Unguarded(run[i].service[s], InstallSnapshot(run[i].servers[s], args).2.value) == run[i + 1].service[s]
            <==> |run[i].service[s]| <= args.lastIncludedPublicIndex
  {
    hide After, NoPanic, Behind, Grows, InstallSnapshot;
    var cs := Chronicles(n, run, events);
    assert StepAt(run, events, i);
    SnapshotEvent(run[i], events[i], s, args);
    assert run[i].servers[s].lastIncludedIndex >= 0 by { ServerOf(run, cs, i, s); }
    HandedOver(run[i].servers[s], run[i + 1].servers[s], args);
    assert args.data <= run[i + 1].service[s] && args.lastIncludedPublicIndex == |args.data| by {
      ServerOf(run, cs, i + 1, s);
      SnapshotBelowService(run[i + 1].servers[s], run[i + 1].service[s], cs[i + 1].log[s], cs[i + 1], cs[i + 1].term[s]);
    }
  }

  lemma SnapshotEvent(sys: System, e: Event, s: int, args: InstallSnapshotArgs)
    requires Enabled(sys, e) && NoPanic(sys, e) && e.OnSnapshot? && At(e) == s && e.packet.snapshot == args
    requires InstallSnapshot(sys.servers[s], args).2.Some?
    ensures IsServer(After(sys, e), s)
    ensures After(sys, e).servers[s] == InstallSnapshot(sys.servers[s], args).0
    ensures After(sys, e).service[s] == Handed(sys.service[s], args)
  {
  }

  /** The service of a server contains at least what its snapshot does. */
  lemma SnapshotBelowService(sv: Server, service: seq<Command>, l: seq<Entry>, c: Chronicle, t: int)
    requires Stores(sv, service, l, c, t) && sv.lastIncludedIndex > 0
    ensures sv.disk.snapshot <= service && sv.lastIncludedPublicIndex == |sv.disk.snapshot|
  {
    CommandsPrefix(l[..sv.lastIncludedIndex + 1], l[..sv.lastApplied + 1]);
  }

  lemma HandedOver(sv: Server, sv': Server, args: InstallSnapshotArgs)
    requires InstallSnapshot(sv, args).2.Some? && sv' == InstallSnapshot(sv, args).0 && sv.lastIncludedIndex >= 0
    ensures InstallSnapshot(sv, args).2.value == SnapshotMsg(args.lastIncludedPublicIndex, args.data)
    ensures sv'.disk.snapshot == args.data && sv'.lastIncludedIndex == args.lastIncludedIndex > 0
    ensures sv'.lastIncludedPublicIndex == args.lastIncludedPublicIndex
  {
  }

  // ---------------------------------------------------------------------------------------------
  // Whole runs
  // ---------------------------------------------------------------------------------------------

  /** The message that an event hands to the service of s, if any. */
  function HandedBy(sys: System, e: Event, s: int): Option<ApplyMsg>
    requires Enabled(sys, e) && NoPanic(sys, e)
  {
    match e
    case Deliver(at) => if at == s then ApplyNext(sys.servers[s]).1 else None
    case OnSnapshot(p) => if p.dst == s then InstallSnapshot(sys.servers[s], p.snapshot).2 else None
    case _ => None
  }

  /** What an event does to an unguarded service: a restart reads the saved snapshot. */
  function UnguardedNext(sys: System, e: Event, s: int, service: seq<Command>): seq<Command>
    requires Enabled(sys, e) && NoPanic(sys, e)
  {
    if e == Crash(s) then sys.servers[s].disk.snapshot else
    match HandedBy(sys, e, s)
    case None => service
    case Some(msg) => Unguarded(service, msg)
  }

  /** The unguarded service of s in the i-th state of a run. */
  ghost function UnguardedAt(run: seq<System>, events: seq<Event>, s: int, i: nat): seq<Command>
    requires i <= |events| && forall k: nat :: k < |events| ==> StepAt(run, events, k)
  {
    if i == 0 then [] else
    assert StepAt(run, events, i - 1);
    UnguardedNext(run[i - 1], events[i - 1], s, UnguardedAt(run, events, s, i - 1))
  }

  /** If event i hands s a snapshot, the service is not ahead of it. */
  ghost predicate NotAhead(run: seq<System>, events: seq<Event>, s: int, i: nat)
  {
    StepAt(run, events, i) && IsServer(run[i], s) ==>
      match HandedBy(run[i], events[i], s)
      case Some(SnapshotMsg(index, _)) => |run[i].service[s]| <= index
      case _ => true
  }

  ghost predicate AlwaysEqual(run: seq<System>, events: seq<Event>, s: int)
    requires |run| == |events| + 1 && forall k: nat :: k < |events| ==> StepAt(run, events, k)
  {
    forall i: nat :: i <= |events| ==> EqualAt(run, events, s, i)
  }

  ghost predicate EqualAt(run: seq<System>, events: seq<Event>, s: int, i: nat)
    requires |run| == |events| + 1 && forall k: nat :: k < |events| ==> StepAt(run, events, k)
  {
    i <= |events| ==> IsServer(run[i], s) && UnguardedAt(run, events, s, i) == run[i].service[s]
  }

  lemma SameServers(n: nat, run: seq<System>, events: seq<Event>, i: nat, s: int)
    requires IsRun(n, run, events) && i <= |events| && 0 <= s < n
    ensures IsServer(run[i], s)
    decreases i
  {
    if i > 0 {
      SameServers(n, run, events, i - 1, s);
      assert StepAt(run, events, i - 1);
    }
  }

  /** One step with both services equal before. */
  lemma EqualStep(n: nat, run: seq<System>, events: seq<Event>, s: int, i: nat)
    requires IsRun(n, run, events) && i < |events| && IsServer(run[i], s) && IsServer(run[i + 1], s)
    ensures StepAt(run, events, i)
    ensures UnguardedNext(run[i], events[i], s, run[i].service[s]) == run[i + 1].service[s] <==> NotAhead(run, events, s, i)
  {
    assert StepAt(run, events, i);
    var e := events[i];
    if At(e) == s && e.OnSnapshot? && HandedBy(run[i], e, s).Some? {
      UnguardedExactly(n, run, events, i, s, e.packet.snapshot);
    } else {
      OtherStep(run[i], e, s);
    }
  }

  /** Without a snapshot both services do the same. */
  lemma OtherStep(sys: System, e: Event, s: int)
    requires Enabled(sys, e) && NoPanic(sys, e) && IsServer(sys, s) && IsServer(After(sys, e), s)
    requires !(At(e) == s && e.OnSnapshot? && HandedBy(sys, e, s).Some?)
    ensures UnguardedNext(sys, e, s, sys.service[s]) == After(sys, e).service[s]
    ensures !(HandedBy(sys, e, s).Some? && HandedBy(sys, e, s).value.SnapshotMsg?)
  {
  }

  /** Over a whole run the unguarded service is always right if and only if it is never handed a snapshot that it is
      ahead of. */
  lemma UnguardedRunExactly(n: nat, run: seq<System>, events: seq<Event>, s: int)
    requires IsRun(n, run, events) && 0 <= s < n
    ensures AlwaysEqual(run, events, s) <==> forall i: nat :: i < |events| ==> NotAhead(run, events, s, i)
  {
    if AlwaysEqual(run, events, s) {
      forall i: nat | i < |events|
        ensures NotAhead(run, events, s, i)
      {
        assert EqualAt(run, events, s, i) && EqualAt(run, events, s, i + 1);
        EqualStep(n, run, events, s, i);
      }
    }
    if forall i: nat :: i < |events| ==> NotAhead(run, events, s, i) {
      forall i: nat | i <= |events|
        ensures EqualAt(run, events, s, i)
      {
        EqualTo(n, run, events, s, i);
      }
    }
  }

  lemma {:induction false} EqualTo(n: nat, run: seq<System>, events: seq<Event>, s: int, i: nat)
    requires IsRun(n, run, events) && 0 <= s < n && i <= |events|
    requires forall k: nat :: k < |events| ==> NotAhead(run, events, s, k)
    ensures EqualAt(run, events, s, i)
    decreases i
  {
    SameServers(n, run, events, i, s);
    if i > 0 {
      EqualTo(n, run, events, s, i - 1);
      EqualStep(n, run, events, s, i - 1);
    }
  }

  // ---------------------------------------------------------------------------------------------
  // What is not handed over again
  // ---------------------------------------------------------------------------------------------

  lemma ServiceNotShorter(sys: System, e: Event, s: int)
    requires Enabled(sys, e) && NoPanic(sys, e) && IsServer(sys, s) && e != Crash(s)
    requires e.OnSnapshot? ==> |e.packet.snapshot.data| == e.packet.snapshot.lastIncludedPublicIndex
    ensures IsServer(After(sys, e), s) && |sys.service[s]| <= |After(sys, e).service[s]|
  {
  }

  /** Only a restart takes anything out of a guarded service. */
  lemma ServiceStep(n: nat, run: seq<System>, events: seq<Event>, i: nat, s: int)
    requires IsRun(n, run, events) && i < |events| && IsServer(run[i], s) && events[i] != Crash(s)
    ensures IsServer(run[i + 1], s) && run[i].service[s] <= run[i + 1].service[s]
  {
    assert StepAt(run, events, i);
    hide After;
    var cs := Chronicles(n, run, events);
    if events[i].OnSnapshot? {
      assert SystemInv(run[i], cs[i]);
      assert PacketInv(events[i].packet, cs[i]);
    }
    ServiceNotShorter(run[i], events[i], s);
    ServicesAgree(n, run, events, i, i + 1, s, s);
  }

  lemma {:induction false} ServiceGrows(n: nat, run: seq<System>, events: seq<Event>, i: nat, j: nat, s: int)
    requires IsRun(n, run, events) && i <= j <= |events| && IsServer(run[i], s)
    requires forall k :: i <= k < j ==> events[k] != Crash(s)
    ensures IsServer(run[j], s) && run[i].service[s] <= run[j].service[s]
    decreases j
  {
    if i < j {
      ServiceGrows(n, run, events, i, j - 1, s);
      ServiceStep(n, run, events, j - 1, s);
    }
  }

  /** Until it restarts, a server hands over no command again that its service had once: neither a command with a smaller
      public index, nor the same. */
  lemma NotHandedAgain(n: nat, run: seq<System>, events: seq<Event>, i: nat, j: nat, s: int)
    requires IsRun(n, run, events) && i <= j < |events| && IsServer(run[i], s)
    requires (forall k :: i <= k < j ==> events[k] != Crash(s)) && StepAt(run, events, j)
    ensures match HandedBy(run[j], events[j], s)
            case Some(CommandMsg(index, _)) => index > |run[i].service[s]|
            case _ => true
  {
    hide Chronicle.Inv, Grows, Behind, Stores, Refines, Commands, ApplyNext, SystemInv, After;
    ServiceGrows(n, run, events, i, j, s);
    if events[j] == Deliver(s) {
      var cs := Chronicles(n, run, events);
      ServerOf(run, cs, j, s);
      DeliverServer(run[j].servers[s], run[j].service[s], cs[j], s);
    }
  }
}
