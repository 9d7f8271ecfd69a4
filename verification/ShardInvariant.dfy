/** The invariant of the whole sharded store, and that every event keeps it. */
module ShardInvariant {
  import opened ShardHandlers
  import opened ShardLane
  import opened ShardSystem

  /** Shard i across all groups. */
  ghost function LaneOf(now: map<int, Group>, gids: set<int>, i: nat): (lane: Lane)
    requires i < N_SHARDS && ShapedNow(now, gids)
    ensures lane.nums.Keys == lane.cells.Keys == gids
    ensures forall g :: g in gids ==> lane.nums[g] == now[g].config.num && lane.cells[g] == now[g].shards[i]
  {
    assert forall g :: g in now ==> ValidGroup(now[g]);
    Lane(map g | g in now :: now[g].config.num, map g | g in now && ValidGroup(now[g]) :: now[g].shards[i])
  }

  /** A group holds two neighbouring configurations of the chain. */
  ghost predicate OnChain(chain: seq<Config>, s: Group)
  {
    && s.config.num < |chain| && s.config == chain[s.config.num]
    && s.lastConfig == if s.config.num == 0 then EmptyConfig() else chain[s.config.num - 1]
  }

  ghost predicate LaneOk(chain: seq<Config>, gids: set<int>, now: map<int, Group>, epochs: seq<nat>, datas: seq<Data>, i: int)
    requires IsChain(chain, gids) && ShapedNow(now, gids) && |epochs| == |datas| == N_SHARDS
  {
    0 <= i < N_SHARDS ==> LaneInv(Owners(chain, i), LaneOf(now, gids, i), epochs[i], datas[i])
  }

  /** What a proposal promises, however late it is applied. */
  ghost predicate ProposalOk(chain: seq<Config>, gids: set<int>, now: map<int, Group>, epochs: seq<nat>, g: int, op: Op)
    requires IsChain(chain, gids) && ShapedNow(now, gids) && |epochs| == N_SHARDS && g in gids && ValidOp(op)
  {
    match op
    case UpdateConfig(c) =>
      && 0 < c.num < |chain| && c == chain[c.num] && now[g].config.num >= c.num - 1
      && (now[g].config.num == c.num - 1 ==> Stable(now[g]))
    case InsertShard(i, n, data) => Fetched(Owners(chain, i), LaneOf(now, gids, i), epochs[i], g, n, data)
    case DeleteShard(i, n) => Left(Owners(chain, i), g, n) && n <= epochs[i]
    case GCComplete(i, n) => Deleted(Owners(chain, i), LaneOf(now, gids, i), g, n)
    case ClientOp(_, _, _, _, _) => true
  }

  ghost predicate ProposedOk(chain: seq<Config>, gids: set<int>, sys: System, epochs: seq<nat>, g: int, op: Op)
    requires IsChain(chain, gids) && WellShaped(sys, gids) && |epochs| == N_SHARDS
  {
    g in gids && op in sys.proposed[g] ==> ProposalOk(chain, gids, sys.now, epochs, g, op)
  }

  /** After a deletion for configuration n was applied, the group pushes nothing from n. */
  ghost predicate AppliedOk(chain: seq<Config>, gids: set<int>, sys: System, g: int, op: Op)
    requires IsChain(chain, gids) && WellShaped(sys, gids)
  {
    g in gids && op in sys.applied[g] && op.DeleteShard? && op.shardId < N_SHARDS ==>
      Behind(LaneOf(sys.now, gids, op.shardId), g, op.configNum) && !Pushes(LaneOf(sys.now, gids, op.shardId), g, op.configNum)
  }

  ghost predicate PastShardOk(chain: seq<Config>, gids: set<int>, now: Group, epochs: seq<nat>, g: int, s: Group, i: int)
    requires IsChain(chain, gids) && ValidGroup(now) && ValidGroup(s) && |epochs| == N_SHARDS
  {
    0 <= i < N_SHARDS ==>
      var owners, n := Owners(chain, i), s.config.num;
      && (n == now.config.num ==> Later(s.shards[i], now.shards[i]))
      && (s.shards[i].status == Pulling || s.shards[i].status == GCing ==> TransferAt(owners, n) && Owner(owners, n) == g)
      && (s.shards[i].status == GCing ==> n <= epochs[i])
  }

  /** What a state that the group has been in still says about it. */
  ghost predicate PastOk(chain: seq<Config>, gids: set<int>, sys: System, epochs: seq<nat>, g: int, s: Group)
    requires IsChain(chain, gids) && WellShaped(sys, gids) && |epochs| == N_SHARDS
  {
    g in gids && s in sys.past[g] ==>
      && ValidGroup(s) && OnChain(chain, s) && s.config.num <= sys.now[g].config.num
      && forall i :: PastShardOk(chain, gids, sys.now[g], epochs, g, s, i)
  }

  ghost predicate Inv(chain: seq<Config>, gids: set<int>, sys: System, epochs: seq<nat>, datas: seq<Data>)
    requires IsChain(chain, gids)
  {
    && WellShaped(sys, gids) && |epochs| == |datas| == N_SHARDS
    && (forall g :: g in gids ==> OnChain(chain, sys.now[g]))
    && (forall i :: LaneOk(chain, gids, sys.now, epochs, datas, i))
    && (forall g, op :: ProposedOk(chain, gids, sys, epochs, g, op))
    && (forall g, op :: AppliedOk(chain, gids, sys, g, op))
    && (forall g, s :: PastOk(chain, gids, sys, epochs, g, s))
  }

  // ---------------------------------------------------------------------------------------------
  // The beginning
  // ---------------------------------------------------------------------------------------------

  lemma Starts(chain: seq<Config>, gids: set<int>)
    requires IsChain(chain, gids) && CleanChain(chain, gids)
    ensures Inv(chain, gids, Start(gids), seq(N_SHARDS, _ => 0), seq(N_SHARDS, _ => EMPTY))
  {
    var sys, epochs, datas := Start(gids), seq(N_SHARDS, _ => 0), seq(N_SHARDS, _ => EMPTY);
    forall i
      ensures LaneOk(chain, gids, sys.now, epochs, datas, i)
    {
      if 0 <= i < N_SHARDS {
        CoversAll(chain, gids, sys, i);
        Begins(Owners(chain, i), LaneOf(sys.now, gids, i));
      }
    }
  }

  lemma CoversAll(chain: seq<Config>, gids: set<int>, sys: System, i: nat)
    requires IsChain(chain, gids) && WellShaped(sys, gids) && i < N_SHARDS
    requires forall g :: g in gids ==> sys.now[g].config.num < |chain|
    ensures Covers(Owners(chain, i), LaneOf(sys.now, gids, i))
  {
    forall n | 0 <= n < |chain| && chain[n].shards[i] != 0
      ensures chain[n].shards[i] in gids
    {
      assert AssignedTo(chain, gids, n, i);
    }
  }

  // ---------------------------------------------------------------------------------------------
  // Proposals
  // ---------------------------------------------------------------------------------------------

  lemma OwnersLast(chain: seq<Config>, gids: set<int>, s: Group, i: nat)
    requires IsChain(chain, gids) && ValidGroup(s) && OnChain(chain, s) && i < N_SHARDS && Clean(Owners(chain, i))
    requires TransferAt(Owners(chain, i), s.config.num)
    ensures OldGid(s, i) == Owner(Owners(chain, i), s.config.num - 1)
  {
    CleanChange(Owners(chain, i), s.config.num);
  }

  lemma AskConfigOk(chain: seq<Config>, gids: set<int>, sys: System, epochs: seq<nat>, datas: seq<Data>, g: int, s: Group)
    requires IsChain(chain, gids) && CleanChain(chain, gids) && Inv(chain, gids, sys, epochs, datas)
    requires Enabled(chain, gids, sys, AskConfig(g, s))
    ensures ProposalOk(chain, gids, sys.now, epochs, g, UpdateConfig(chain[s.config.num + 1]))
  {
    assert PastOk(chain, gids, sys, epochs, g, s);
    if sys.now[g].config.num == s.config.num {
      forall i | 0 <= i < N_SHARDS
        ensures Settled(sys.now[g].shards[i])
      {
        assert PastShardOk(chain, gids, sys.now[g], epochs, g, s, i);
      }
    }
  }

  lemma FetchOk(chain: seq<Config>, gids: set<int>, sys: System, epochs: seq<nat>, datas: seq<Data>, g: int, s: Group, i: nat, t: Group)
    requires IsChain(chain, gids) && CleanChain(chain, gids) && Inv(chain, gids, sys, epochs, datas)
    requires Enabled(chain, gids, sys, Fetch(g, s, i, t))
    ensures ProposalOk(chain, gids, sys.now, epochs, g, InsertShard(i, s.config.num, t.shards[i].data))
  {
    var owners, n, old' := Owners(chain, i), s.config.num, OldGid(s, i);
    assert PastOk(chain, gids, sys, epochs, g, s) && PastOk(chain, gids, sys, epochs, old', t);
    assert PastShardOk(chain, gids, sys.now[g], epochs, g, s, i);
    assert PastShardOk(chain, gids, sys.now[old'], epochs, old', t, i);
    OwnersLast(chain, gids, s, i);
    assert LaneOk(chain, gids, sys.now, epochs, datas, i);
    assert GroupFits(owners, LaneOf(sys.now, gids, i), epochs[i], old');
    assert Left(owners, old', n);
  }

  lemma SendDeleteOk(chain: seq<Config>, gids: set<int>, sys: System, epochs: seq<nat>, datas: seq<Data>, g: int, s: Group, i: nat)
    requires IsChain(chain, gids) && CleanChain(chain, gids) && Inv(chain, gids, sys, epochs, datas)
    requires Enabled(chain, gids, sys, SendDelete(g, s, i))
    ensures ProposalOk(chain, gids, sys.now, epochs, OldGid(s, i), DeleteShard(i, s.config.num))
  {
    assert PastOk(chain, gids, sys, epochs, g, s);
    assert PastShardOk(chain, gids, sys.now[g], epochs, g, s, i);
    OwnersLast(chain, gids, s, i);
  }

  lemma DeleteAcknowledgedOk(chain: seq<Config>, gids: set<int>, sys: System, epochs: seq<nat>, datas: seq<Data>, g: int, s: Group, i: nat)
    requires IsChain(chain, gids) && CleanChain(chain, gids) && Inv(chain, gids, sys, epochs, datas)
    requires Enabled(chain, gids, sys, DeleteAcknowledged(g, s, i))
    ensures ProposalOk(chain, gids, sys.now, epochs, g, GCComplete(i, s.config.num))
  {
    assert PastOk(chain, gids, sys, epochs, g, s);
    assert PastShardOk(chain, gids, sys.now[g], epochs, g, s, i);
    OwnersLast(chain, gids, s, i);
    assert AppliedOk(chain, gids, sys, OldGid(s, i), DeleteShard(i, s.config.num));
  }

  /** A new proposal changes nothing else. */
  lemma ProposeKeeps(chain: seq<Config>, gids: set<int>, sys: System, epochs: seq<nat>, datas: seq<Data>, g: int, op: Op)
    requires IsChain(chain, gids) && Inv(chain, gids, sys, epochs, datas) && g in gids && ValidOp(op)
    requires ProposalOk(chain, gids, sys.now, epochs, g, op)
    ensures Inv(chain, gids, Propose(sys, g, op), epochs, datas)
  {
    hide ProposalOk, LaneInv, PastShardOk, Pushes, Behind;
    var sys' := Propose(sys, g, op);
    forall g', op'
      ensures ProposedOk(chain, gids, sys', epochs, g', op') && AppliedOk(chain, gids, sys', g', op')
    {
      assert ProposedOk(chain, gids, sys, epochs, g', op') && AppliedOk(chain, gids, sys, g', op');
    }
    forall g', s ensures PastOk(chain, gids, sys', epochs, g', s) { assert PastOk(chain, gids, sys, epochs, g', s); }
  }
}
