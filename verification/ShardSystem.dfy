/** All groups together. A group is one state machine fed from its log; its tickers and its replies may come from
    any state that it has been in, since a replica may lag; what they propose may be applied late, many times or
    never. */
module ShardSystem {
  import opened ShardHandlers
  import opened ShardLane

  datatype System = System(
    now: map<int, Group>,
    past: map<int, set<Group>>,
    proposed: map<int, set<Op>>,
    applied: map<int, set<Op>>)

  datatype Event =
    /** The configuration ticker, at a state `seen` with nothing on the move, asks for the next configuration. */
    | AskConfig(gid: int, seen: Group)
    /** The migration ticker, at a state that pulls the shard, fetches it from the old group's state `from`. */
    | Fetch(gid: int, seen: Group, shardId: nat, from: Group)
    /** The garbage-collection ticker, at a state that has the shard in GCing, asks the old group to delete it. */
    | SendDelete(gid: int, seen: Group, shardId: nat)
    /** The old group has applied that deletion and says OK. */
    | DeleteAcknowledged(gid: int, seen: Group, shardId: nat)
    /** A client's request enters the log. */
    | Request(gid: int, op: Op)
    /** A log entry is applied. */
    | Commit(gid: int, op: Op)

  /** Numbered from 0, where no shard is assigned; only known groups. */
  ghost predicate IsChain(chain: seq<Config>, gids: set<int>)
  {
    && |chain| > 0 && chain[0] == EmptyConfig() && 0 !in gids
    && (forall n :: 0 <= n < |chain| ==> chain[n].num == n && ValidConfig(chain[n]))
    && (forall n, i :: 0 <= n < |chain| && 0 <= i < N_SHARDS ==> AssignedTo(chain, gids, n, i))
  }

  ghost predicate AssignedTo(chain: seq<Config>, gids: set<int>, n: int, i: int)
  {
    0 <= n < |chain| && 0 <= i < |chain[n].shards| ==> chain[n].shards[i] == 0 || chain[n].shards[i] in gids
  }

  /** Where shard i is assigned in each configuration. */
  function Owners(chain: seq<Config>, i: int): seq<int>
    requires forall n :: 0 <= n < |chain| ==> 0 <= i < |chain[n].shards|
  {
    seq(|chain|, n requires 0 <= n < |chain| => chain[n].shards[i])
  }

  ghost predicate CleanChain(chain: seq<Config>, gids: set<int>)
    requires IsChain(chain, gids)
  {
    forall i :: 0 <= i < N_SHARDS ==> Clean(Owners(chain, i))
  }

  function Start(gids: set<int>): System
  {
    System(map g | g in gids :: Initial(), map g | g in gids :: {Initial()}, map g | g in gids :: {}, map g | g in gids :: {})
  }

  ghost predicate WellShaped(sys: System, gids: set<int>)
  {
    && ShapedNow(sys.now, gids) && sys.past.Keys == sys.proposed.Keys == sys.applied.Keys == gids
    && (forall g :: g in gids ==> AllValid(sys.past[g]))
    && (forall g :: g in gids ==> AllValidOps(sys.proposed[g]))
  }

  ghost predicate ShapedNow(now: map<int, Group>, gids: set<int>)
  {
    now.Keys == gids && forall g :: g in gids ==> ValidGroup(now[g])
  }

  ghost predicate AllValid(groups: set<Group>)
  {
    forall s :: s in groups ==> ValidGroup(s)
  }

  ghost predicate AllValidOps(ops: set<Op>)
  {
    forall op :: op in ops ==> ValidOp(op)
  }

  /** The group that had the shard before the configuration of s. */
  function OldGid(s: Group, i: nat): int
    requires ValidGroup(s) && i < N_SHARDS
  {
    s.lastConfig.shards[i]
  }

  ghost predicate Enabled(chain: seq<Config>, gids: set<int>, sys: System, e: Event)
    requires WellShaped(sys, gids)
  {
    && e.gid in gids
    && match e
       case AskConfig(g, s) => s in sys.past[g] && Stable(s) && s.config.num + 1 < |chain|
       case Fetch(g, s, i, t) =>
         && s in sys.past[g] && i < N_SHARDS && s.shards[i].status == Pulling
         && OldGid(s, i) in gids && t in sys.past[OldGid(s, i)] && FetchReply(t, i, s.config.num).OK?
       case SendDelete(g, s, i) =>
         s in sys.past[g] && i < N_SHARDS && s.shards[i].status == GCing && OldGid(s, i) in gids
       case DeleteAcknowledged(g, s, i) =>
         && s in sys.past[g] && i < N_SHARDS && s.shards[i].status == GCing && OldGid(s, i) in gids
         && DeleteShard(i, s.config.num) in sys.applied[OldGid(s, i)]
       case Request(g, op) => op.ClientOp?
       case Commit(g, op) => op in sys.proposed[g]
  }

  function Propose(sys: System, g: int, op: Op): System
    requires g in sys.proposed
  {
    sys.(proposed := sys.proposed[g := sys.proposed[g] + {op}])
  }

  ghost function After(chain: seq<Config>, gids: set<int>, sys: System, e: Event): System
    requires WellShaped(sys, gids) && IsChain(chain, gids) && Enabled(chain, gids, sys, e)
  {
    match e
    case AskConfig(g, s) => Propose(sys, g, UpdateConfig(chain[s.config.num + 1]))
    case Fetch(g, s, i, t) => Propose(sys, g, InsertShard(i, s.config.num, FetchReply(t, i, s.config.num).data))
    case SendDelete(g, s, i) => Propose(sys, OldGid(s, i), DeleteShard(i, s.config.num))
    case DeleteAcknowledged(g, s, i) => Propose(sys, g, GCComplete(i, s.config.num))
    case Request(g, op) => Propose(sys, g, op)
    case Commit(g, op) => Committed(sys, g, op, Apply(g, sys.now[g], op))
  }

  function Committed(sys: System, g: int, op: Op, group: Group): System
    requires g in sys.past && g in sys.applied
  {
    System(sys.now[g := group], sys.past[g := sys.past[g] + {group}], sys.proposed, sys.applied[g := sys.applied[g] + {op}])
  }

  lemma ApplyValid(gid: int, g: Group, op: Op)
    requires ValidGroup(g) && ValidOp(op)
    ensures ValidGroup(Apply(gid, g, op))
  {
  }

  lemma StaysShaped(chain: seq<Config>, gids: set<int>, sys: System, e: Event)
    requires WellShaped(sys, gids) && IsChain(chain, gids) && Enabled(chain, gids, sys, e)
    ensures WellShaped(After(chain, gids, sys, e), gids)
  {
    if e.Commit? { ApplyValid(e.gid, sys.now[e.gid], e.op); }
  }

  // ---------------------------------------------------------------------------------------------
  // Runs
  // ---------------------------------------------------------------------------------------------

  /** The state after a sequence of events, if each was possible when it happened. */
  ghost function StateAfter(chain: seq<Config>, gids: set<int>, run: seq<Event>): (sys: System)
    requires IsChain(chain, gids)
    ensures WellShaped(sys, gids)
  {
    if |run| == 0 then Start(gids) else
    var sys := StateAfter(chain, gids, run[..|run| - 1]);
    var e := run[|run| - 1];
    if Enabled(chain, gids, sys, e) then
      StaysShaped(chain, gids, sys, e);
      After(chain, gids, sys, e)
    else
      sys
  }

  ghost predicate IsRun(chain: seq<Config>, gids: set<int>, run: seq<Event>)
    requires IsChain(chain, gids)
  {
    |run| == 0 ||
    (IsRun(chain, gids, run[..|run| - 1]) && Enabled(chain, gids, StateAfter(chain, gids, run[..|run| - 1]), run[|run| - 1]))
  }

  /** Event e applies a client operation to shard i and it takes effect. */
  ghost predicate HasEffect(sys: System, e: Event, i: int)
  {
    && e.Commit? && e.op.ClientOp? && Key2Shard(e.op.key) == i && e.gid in sys.now
    && ValidGroup(sys.now[e.gid]) && TakesEffect(sys.now[e.gid].shards[i], e.op)
  }

  /** The operations that took effect on shard i over all groups, in order. */
  ghost function Effects(chain: seq<Config>, gids: set<int>, run: seq<Event>, i: int): (ops: seq<Op>)
    requires IsChain(chain, gids)
    ensures forall k :: 0 <= k < |ops| ==> ops[k].ClientOp? && Key2Shard(ops[k].key) == i
  {
    if |run| == 0 then [] else
    var before, e := run[..|run| - 1], run[|run| - 1];
    Effects(chain, gids, before, i) + if HasEffect(StateAfter(chain, gids, before), e, i) then [e.op] else []
  }
}
