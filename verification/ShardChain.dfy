/** The configurations that the master makes are a chain that the groups can follow, and a chain under which
    ownership is exclusive as long as groups are never all removed. */
module ShardChain {
  import M = ShardMaster
  import Rebalance
  import RebalanceSteps
  import opened ShardHandlers
  import opened ShardLane
  import opened ShardSystem

  /** What the groups use of a configuration. */
  function Strip(configs: seq<M.Config>): seq<Config>
  {
    seq(|configs|, k requires 0 <= k < |configs| => Config(configs[k].num, configs[k].shards))
  }

  /** The groups that some configuration assigns a shard to. */
  ghost function Owning(configs: seq<M.Config>): set<int>
  {
    set k, i | 0 <= k < |configs| && 0 <= i < |configs[k].shards| && configs[k].shards[i] != 0 :: configs[k].shards[i]
  }

  /** Every log makes a chain. */
  lemma MasterMakesChain(log: seq<M.Op>)
    requires M.ValidLog(N_SHARDS, log)
    ensures var configs := M.StateAfter(N_SHARDS, log).configs; IsChain(Strip(configs), Owning(configs))
  {
    var m := M.StateAfter(N_SHARDS, log);
    var chain, gids := Strip(m.configs), Owning(m.configs);
    forall k | 0 <= k < |chain|
      ensures chain[k].num == k && ValidConfig(chain[k])
    {
      assert M.ConfigAt(m, N_SHARDS, k);
    }
    forall k, i | 0 <= k < |chain| && 0 <= i < N_SHARDS
      ensures AssignedTo(chain, gids, k, i)
    {
      assert M.ConfigAt(m, N_SHARDS, k);
    }
  }

  /** The operation leaves some group, and no group is called 0. */
  predicate Steady(config: M.Config, op: M.Op)
  {
    if op.Move? then op.gid != 0 else M.NewGroups(config.groups, op) != map[] && 0 !in M.NewGroups(config.groups, op)
  }

  /** A steady operation leaves no shard without a group that had one. */
  lemma StaysAssigned(config: M.Config, op: M.Op, i: nat)
    requires M.ValidOp(|config.shards|, op) && Steady(config, op) && i < |config.shards| && config.shards[i] != 0
    ensures var shards := M.NewShards(config, op); |shards| == |config.shards| && shards[i] != 0
  {
    M.NewShardsLength(config, op);
    if !op.Move? {
      var gids := M.Gids(M.NewGroups(config.groups, op));
      if |gids| == 0 { M.NoKeys(M.NewGroups(config.groups, op), gids); }
      RebalanceSteps.RebalanceGreedy(config.shards, gids);
      var g := M.NewShards(config, op)[i];
      assert g in gids;
    }
  }

  ghost predicate SteadyLog(log: seq<M.Op>)
    requires M.ValidLog(N_SHARDS, log)
  {
    var m, ops := M.StateAfter(N_SHARDS, log), M.Effective(N_SHARDS, log);
    forall k :: 0 <= k < |ops| && k < |m.configs| ==> Steady(m.configs[k], ops[k])
  }

  lemma NextAssigned(log: seq<M.Op>, k: nat, i: nat)
    requires M.ValidLog(N_SHARDS, log) && SteadyLog(log) && i < N_SHARDS
    requires k + 1 < |M.StateAfter(N_SHARDS, log).configs| && |M.StateAfter(N_SHARDS, log).configs[k].shards| == N_SHARDS
    ensures var configs := M.StateAfter(N_SHARDS, log).configs;
            |configs[k + 1].shards| == N_SHARDS && (configs[k].shards[i] != 0 ==> configs[k + 1].shards[i] != 0)
  {
    var m, ops := M.StateAfter(N_SHARDS, log), M.Effective(N_SHARDS, log);
    M.OneConfigEach(N_SHARDS, log);
    assert M.MadeBy(m, N_SHARDS, ops, k) && M.ConfigAt(m, N_SHARDS, k + 1);
    if m.configs[k].shards[i] != 0 { StaysAssigned(m.configs[k], ops[k], i); }
  }

  lemma {:induction false} NoOwnerBefore(log: seq<M.Op>, k: nat, i: nat)
    requires M.ValidLog(N_SHARDS, log) && SteadyLog(log) && i < N_SHARDS
    requires IsChain(Strip(M.StateAfter(N_SHARDS, log).configs), Owning(M.StateAfter(N_SHARDS, log).configs))
    requires var owners := Owners(Strip(M.StateAfter(N_SHARDS, log).configs), i); k < |owners| && owners[k] == 0
    ensures Owner(Owners(Strip(M.StateAfter(N_SHARDS, log).configs), i), k) == 0
  {
    if k > 0 {
      var m := M.StateAfter(N_SHARDS, log);
      assert M.ConfigAt(m, N_SHARDS, k - 1);
      NextAssigned(log, k - 1, i);
      NoOwnerBefore(log, k - 1, i);
    }
  }

  /** If no operation removes the last group or moves a shard to no group, the chain is clean. */
  lemma SteadyLogIsClean(log: seq<M.Op>)
    requires M.ValidLog(N_SHARDS, log) && SteadyLog(log)
    ensures var configs := M.StateAfter(N_SHARDS, log).configs;
            IsChain(Strip(configs), Owning(configs)) && CleanChain(Strip(configs), Owning(configs))
  {
    MasterMakesChain(log);
    var chain := Strip(M.StateAfter(N_SHARDS, log).configs);
    forall i | 0 <= i < N_SHARDS
      ensures Clean(Owners(chain, i))
    {
      var owners := Owners(chain, i);
      forall n
        ensures CleanAt(owners, n)
      {
        if 0 <= n && n + 1 < |owners| && owners[n] == 0 { NoOwnerBefore(log, n, i); }
      }
    }
  }
}
