/** A run in which a snapshot that is behind makes an unguarded service forget a command: the leader sends a follower
    two committed commands, takes a snapshot of the first, sends that, and the follower applies both commands before
    the snapshot arrives. */
module RaftLateSnapshot {
  import opened RaftEntries
  import opened RaftHandlers
  import opened RaftSystem
  import opened RaftHandover

  // ---------------------------------------------------------------------------------------------
  // Making a run longer
  // ---------------------------------------------------------------------------------------------

  lemma {:induction false} UnguardedPrefix(run: seq<System>, events: seq<Event>, run': seq<System>, events': seq<Event>, s: int, i: nat)
    requires (forall k: nat :: k < |events| ==> StepAt(run, events, k)) && forall k: nat :: k < |events'| ==> StepAt(run', events', k)
    requires run <= run' && events <= events' && i <= |events|
    ensures UnguardedAt(run', events', s, i) == UnguardedAt(run, events, s, i)
    decreases i
  {
    if i > 0 {
      UnguardedPrefix(run, events, run', events', s, i - 1);
      assert StepAt(run, events, i - 1);
    }
  }

  /** The three servers, the services of the first two, and the unguarded service of server 1. */
  datatype Scene = Scene(leader: Server, late: Server, other: Server, first: seq<Command>, second: seq<Command>, unguarded: seq<Command>)

  predicate Shows(sys: System, unguarded: seq<Command>, now: Scene)
  {
    && sys.servers == [now.leader, now.late, now.other] && unguarded == now.unguarded
    && |sys.service| == 3 && sys.service[0] == now.first && sys.service[1] == now.second
  }

  /** The run ends in this scene. */
  ghost predicate Ends(run: seq<System>, events: seq<Event>, now: Scene)
  {
    IsRun(3, run, events) && Shows(run[|events|], UnguardedAt(run, events, 1, |events|), now)
  }

  lemma Act(run: seq<System>, events: seq<Event>, now: Scene, e: Event, next: Scene) returns (run': seq<System>, events': seq<Event>)
    requires Ends(run, events, now) && Enabled(run[|events|], e) && NoPanic(run[|events|], e)
    requires Shows(After(run[|events|], e), UnguardedNext(run[|events|], e, 1, now.unguarded), next)
    ensures Ends(run', events', next) && events' == events + [e] && run' == run + [After(run[|events|], e)]
  {
    hide After, Enabled, NoPanic, UnguardedNext;
    run', events' := run + [After(run[|events|], e)], events + [e];
    forall i: nat | i < |events'|
      ensures StepAt(run', events', i)
    {
      if i < |events| { assert StepAt(run, events, i); }
    }
    UnguardedPrefix(run, events, run', events', 1, |events|);
  }

  // ---------------------------------------------------------------------------------------------
  // The servers of the story
  // ---------------------------------------------------------------------------------------------

  const NOOP := Entry(2, None)
  const TWO := [SENTINEL, NOOP, Entry(2, Some("a")), Entry(2, Some("b"))]

  function LeaderOf(logs: seq<Entry>, next: seq<int>, match_: seq<int>, commit: int, applied: int): Server
  {
    Server(0, 3, 2, 0, Leader, logs, commit, applied, next, match_, 0, 0, 0, {0, 2}, Persisted(2, 0, logs, 0, 0, 0, []))
  }

  function FollowerOf(me: int, votedFor: int, logs: seq<Entry>, commit: int, applied: int): Server
  {
    Server(me, 3, 2, votedFor, Follower, logs, commit, applied, [0, 0, 0], [0, 0, 0], 0, 0, 0, {}, Persisted(2, votedFor, logs, 0, 0, 0, []))
  }

  /** The leader after it has cut its log behind "a". */
  function CutLeader(next: seq<int>, match_: seq<int>): Server
  {
    var logs := [NOOP, Entry(2, Some("b"))];
    Server(0, 3, 2, 0, Leader, logs, 3, 2, next, match_, 2, 2, 1, {0, 2}, Persisted(2, 0, logs, 2, 2, 1, ["a"]))
  }

  const LATE := InstallSnapshotArgs(2, 0, 2, 2, 1, ["a"])

  lemma ThreeValues(v: int)
    ensures Filled(3, v) == [v, v, v]
  {
  }

  // ---------------------------------------------------------------------------------------------
  // The story
  // ---------------------------------------------------------------------------------------------

  lemma Begin() returns (run: seq<System>, events: seq<Event>)
    ensures Ends(run, events, Scene(Boot(0, 3), Boot(1, 3), Boot(2, 3), [], [], []))
  {
    run, events := [Initial(3)], [];
    assert Initial(3).servers == [Boot(0, 3), Boot(1, 3), Boot(2, 3)];
  }

  /** Server 0 is elected with the vote of server 2. */
  lemma Elect() returns (run: seq<System>, events: seq<Event>)
    ensures Ends(run, events, Elected())
  {
    ThreeValues(0);
    ThreeValues(2);
    run, events := Begin();
    var now := Scene(Boot(0, 3), Boot(1, 3), Boot(2, 3), [], [], []);
    var next := now.(leader := StartElection(Boot(0, 3)));
    run, events := Act(run, events, now, Timeout(0), next);
    now := next;
    run, events := Act(run, events, now, AskVote(0, 2), now);
    var ask := VoteRequest(0, 2, RequestVoteArgs(2, 0, 0, 0));
    next := now.(other := FollowerOf(2, 0, [SENTINEL], -1, -1));
    run, events := Act(run, events, now, OnVoteRequest(ask), next);
    now := next;
    var answer := VoteReply(2, 0, ask.vote, RequestVoteReply(2, true));
    next := now.(leader := now.leader.(votes := {0, 2}));
    assert HandleRequestVoteReply(now.leader, 2, true, answer.voteReply) == next.leader;
    run, events := Act(run, events, now, OnVoteReply(answer), next);
    now := next;
    assert BecomeLeader(now.leader) == Elected().leader;
    run, events := Act(run, events, now, Win(0), Elected());
  }

  function Elected(): Scene
  {
    Scene(LeaderOf([SENTINEL, NOOP], [2, 2, 2], [0, 0, 0], -1, -1), Boot(1, 3), FollowerOf(2, 0, [SENTINEL], -1, -1), [], [], [])
  }

  function Call(prev: int, prevTerm: int, entries: seq<Entry>, commit: int): AppendEntriesArgs
  {
    AppendEntriesArgs(2, 0, prev, prevTerm, entries, commit)
  }

  /** The leader takes "a" and "b". */
  lemma TakeCommands() returns (run: seq<System>, events: seq<Event>)
    ensures Ends(run, events, Elected().(leader := LeaderOf(TWO, [2, 2, 2], [0, 0, 0], -1, -1)))
  {
    run, events := Elect();
    var now := Elected();
    var next := now.(leader := LeaderOf(TWO[..3], [2, 2, 2], [0, 0, 0], -1, -1));
    assert Start(now.leader, "a").0 == next.leader;
    run, events := Act(run, events, now, Client(0, "a"), next);
    now := next;
    next := now.(leader := LeaderOf(TWO, [2, 2, 2], [0, 0, 0], -1, -1));
    assert Start(now.leader, "b").0 == next.leader;
    run, events := Act(run, events, now, Client(0, "b"), next);
  }

  function Refused(): Scene
  {
    Elected().(leader := LeaderOf(TWO, [2, 2, 1], [0, 0, 0], -1, -1))
  }

  /** Server 2 first has too short a log: it refuses. */
  lemma Refuse() returns (run: seq<System>, events: seq<Event>)
    ensures Ends(run, events, Refused())
  {
    run, events := TakeCommands();
    var now := Elected().(leader := LeaderOf(TWO, [2, 2, 2], [0, 0, 0], -1, -1));
    run, events := Act(run, events, now, SendTo(0, 2), now);
    var call, refusal := Call(1, 2, TWO[2..], -1), AppendEntriesReply(2, false, 1, -1);
    assert AppendEntries(now.other, call) == (now.other, refusal);
    run, events := Act(run, events, now, OnEntries(EntriesRequest(0, 2, call)), now);
    assert HandleAppendEntriesReply(now.leader, 2, call, refusal) == Refused().leader;
    run, events := Act(run, events, now, OnEntriesReply(EntriesReply(2, 0, call, refusal)), Refused());
  }

  function Stored(): Scene
  {
    Elected().(leader := LeaderOf(TWO, [2, 2, 4], [0, 0, 3], 3, -1), other := FollowerOf(2, 0, TWO, -1, -1))
  }

  /** Then it stores everything. */
  lemma Store() returns (run: seq<System>, events: seq<Event>)
    ensures Ends(run, events, Refused().(other := FollowerOf(2, 0, TWO, -1, -1)))
    ensures EntriesReply(2, 0, Call(0, 0, TWO[1..], -1), DONE) in run[|events|].net
  {
    run, events := Refuse();
    var now := Refused();
    run, events := Act(run, events, now, SendTo(0, 2), now);
    var call := Call(0, 0, TWO[1..], -1);
    Accepts(2, 0, -1);
    var next := now.(other := FollowerOf(2, 0, TWO, -1, -1));
    run, events := Act(run, events, now, OnEntries(EntriesRequest(0, 2, call)), next);
  }

  /** With that both commands are committed. */
  lemma Replicate() returns (run: seq<System>, events: seq<Event>)
    ensures Ends(run, events, Stored())
  {
    hide UnguardedAt;
    run, events := Store();
    var now, call := Refused().(other := FollowerOf(2, 0, TWO, -1, -1)), Call(0, 0, TWO[1..], -1);
    var next := now.(leader := LeaderOf(TWO, [2, 2, 4], [0, 0, 3], -1, -1));
    assert HandleAppendEntriesReply(now.leader, 2, call, DONE) == next.leader;
    run, events := Act(run, events, now, OnEntriesReply(EntriesReply(2, 0, call, DONE)), next);
    now := next;
    assert Holders(now.leader, 3) == {0, 2};
    run, events := Act(run, events, now, CommitCheck(0), Stored());
  }

  const DONE := AppendEntriesReply(2, true, 0, 0)

  /** A follower without entries takes all three, and the commit index with them. */
  lemma Accepts(me: int, votedFor: int, commit: int)
    requires commit == -1 || commit == 3
    ensures AppendEntries(FollowerOf(me, votedFor, [SENTINEL], -1, -1), Call(0, 0, TWO[1..], commit))
            == (FollowerOf(me, votedFor, TWO, commit, -1), DONE)
  {
    var s := FollowerOf(me, votedFor, [SENTINEL], -1, -1);
    assert MergeEntries(s.logs, 1, TWO[1..]) == TWO;
  }

  function Backed(): Scene
  {
    Stored().(leader := LeaderOf(TWO, [2, 1, 4], [0, 0, 3], 3, -1), late := FollowerOf(1, -1, [SENTINEL], -1, -1))
  }

  /** Server 1 refuses once: it has no entry before "a". */
  lemma BackUp() returns (run: seq<System>, events: seq<Event>)
    ensures Ends(run, events, Backed())
  {
    run, events := Replicate();
    var now := Stored();
    run, events := Act(run, events, now, SendTo(0, 1), now);
    var call, refusal := Call(1, 2, TWO[2..], 3), AppendEntriesReply(2, false, 1, -1);
    var next := now.(late := FollowerOf(1, -1, [SENTINEL], -1, -1));
    ThreeValues(0);
    assert AppendEntries(now.late, call) == (next.late, refusal);
    run, events := Act(run, events, now, OnEntries(EntriesRequest(0, 1, call)), next);
    now := next;
    assert HandleAppendEntriesReply(now.leader, 1, call, refusal) == Backed().leader;
    run, events := Act(run, events, now, OnEntriesReply(EntriesReply(1, 0, call, refusal)), Backed());
  }

  function Cut(): Scene
  {
    Backed().(leader := CutLeader([2, 1, 4], [0, 0, 3]), first := ["a"])
  }

  function LeaderAhead(): Scene
  {
    Backed().(leader := LeaderOf(TWO, [2, 1, 4], [0, 0, 3], 3, 2), first := ["a"])
  }

  /** The leader applies "a". */
  lemma LeaderApplies() returns (run: seq<System>, events: seq<Event>)
    ensures Ends(run, events, LeaderAhead())
  {
    run, events := BackUp();
    var now := Backed();
    var next := now.(leader := LeaderOf(TWO, [2, 1, 4], [0, 0, 3], 3, 0));
    run, events := Act(run, events, now, Deliver(0), next);
    now := next;
    next := now.(leader := LeaderOf(TWO, [2, 1, 4], [0, 0, 3], 3, 1));
    run, events := Act(run, events, now, Deliver(0), next);
    now := next;
    run, events := Act(run, events, now, Deliver(0), LeaderAhead());
  }

  /** It sends server 1 the entries, takes a snapshot behind "a" and sends that too. */
  lemma SendBoth() returns (run: seq<System>, events: seq<Event>)
    ensures Ends(run, events, Cut())
    ensures EntriesRequest(0, 1, Call(0, 0, TWO[1..], 3)) in run[|events|].net && SnapshotRequest(0, 1, LATE) in run[|events|].net
  {
    run, events := LeaderApplies();
    var now := LeaderAhead();
    run, events := Act(run, events, now, SendTo(0, 1), now);
    Cuts(now.leader);
    assert now.first[..1] == now.first;
    run, events := Act(run, events, now, TakeSnapshot(0, 1), Cut());
    run, events := Act(run, events, Cut(), SendTo(0, 1), Cut());
  }

  lemma Cuts(leader: Server)
    requires leader == LeaderOf(TWO, [2, 1, 4], [0, 0, 3], 3, 2)
    ensures Snapshot(leader, 1, ["a"]) == CutLeader([2, 1, 4], [0, 0, 3])
  {
    assert FindCommand(leader.logs, 1, 1) == FindCommand(leader.logs, 2, 1) == Some(2);
  }

  function Applied(): Scene
  {
    Cut().(late := FollowerOf(1, -1, TWO, 3, 3), second := ["a", "b"], unguarded := ["a", "b"])
  }

  function Passed(): Scene
  {
    Cut().(late := FollowerOf(1, -1, TWO, 3, 1))
  }

  /** Server 1 takes the entries and passes over the sentinel and the no-op. */
  lemma TakeEntriesFirst() returns (run: seq<System>, events: seq<Event>)
    ensures Ends(run, events, Passed()) && SnapshotRequest(0, 1, LATE) in run[|events|].net
  {
    hide UnguardedAt, AppendEntries, Commands;
    run, events := SendBoth();
    var now := Cut();
    Accepts(1, -1, 3);
    var next := now.(late := FollowerOf(1, -1, TWO, 3, -1));
    run, events := Act(run, events, now, OnEntries(EntriesRequest(0, 1, Call(0, 0, TWO[1..], 3))), next);
    now := next;
    next := now.(late := FollowerOf(1, -1, TWO, 3, 0));
    run, events := Act(run, events, now, Deliver(1), next);
    now := next;
    run, events := Act(run, events, now, Deliver(1), Passed());
  }

  /** It applies both commands. */
  lemma ApplyBoth() returns (run: seq<System>, events: seq<Event>)
    ensures Ends(run, events, Applied()) && SnapshotRequest(0, 1, LATE) in run[|events|].net
  {
    run, events := TakeEntriesFirst();
    var now := Passed();
    var next := now.(late := FollowerOf(1, -1, TWO, 3, 2), second := ["a"], unguarded := ["a"]);
    run, events := Act(run, events, now, Deliver(1), next);
    now := next;
    run, events := Act(run, events, now, Deliver(1), Applied());
  }

  /** The snapshot arrives last. The guarded service keeps both commands; the unguarded one is back at "a", and until it
      restarts or takes a newer snapshot it is handed "b" no more (NotHandedAgain), for the server's log and lastApplied
      stay. */
  lemma LateSnapshotLosesCommand() returns (run: seq<System>, events: seq<Event>)
    ensures IsRun(3, run, events) && |events| > 0 && IsServer(run[|events| - 1], 1) && IsServer(run[|events|], 1)
    ensures events[|events| - 1] == OnSnapshot(SnapshotRequest(0, 1, LATE))
    ensures UnguardedAt(run, events, 1, |events| - 1) == run[|events| - 1].service[1] == ["a", "b"]
    ensures UnguardedAt(run, events, 1, |events|) == ["a"] && run[|events|].service[1] == ["a", "b"]
    ensures run[|events|].servers[1].lastApplied == run[|events|].servers[1].LastLogIndex() == 3
    ensures !NotAhead(run, events, 1, |events| - 1) && !AlwaysEqual(run, events, 1)
  {
    var run0, events0 := ApplyBoth();
    var last := OnSnapshot(SnapshotRequest(0, 1, LATE));
    var s := InstallSnapshot(Applied().late, LATE).0;
    var end := Applied().(late := s, unguarded := ["a"]);
    run, events := Act(run0, events0, Applied(), last, end);
    UnguardedPrefix(run0, events0, run, events, 1, |events0|);
    EqualStep(3, run, events, 1, |events0|);
    UnguardedRunExactly(3, run, events, 1);
  }
}
