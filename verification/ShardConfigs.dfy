/** Which groups a configuration has, and when an operation makes one, over every log of the master. */
module ShardConfigs {
  import opened Rebalance
  import opened RebalanceSteps
  import opened ShardMaster

  /** Configurations k and k + 1 of a log, and the operation between them. */
  ghost predicate Between(n: nat, log: seq<Op>, k: nat, before: Config, op: Op, after: Config)
    requires ValidLog(n, log)
  {
    && k < |Effective(n, log)| && k + 1 < |StateAfter(n, log).configs|
    && op == Effective(n, log)[k] && before == StateAfter(n, log).configs[k] && after == StateAfter(n, log).configs[k + 1]
  }

  /** Every shard is with one of the groups, or with 0 if there are none. */
  ghost predicate OnGroups(config: Config)
  {
    forall i :: 0 <= i < |config.shards| ==> if config.groups == map[] then config.shards[i] == 0 else config.shards[i] in config.groups
  }

  lemma Made(n: nat, log: seq<Op>, k: nat, before: Config, op: Op, after: Config)
    requires ValidLog(n, log) && Between(n, log, k, before, op, after)
    ensures |before.shards| == |after.shards| == n && before.num == k && ValidOp(n, op) && after == NextConfig(before, op)
    ensures !op.Query? && (op.Join? || op.Leave? ==> OnGroups(after))
  {
    hide NextConfig;
    OneConfigEach(n, log);
    assert MadeBy(StateAfter(n, log), n, Effective(n, log), k);
    assert ConfigAt(StateAfter(n, log), n, k) && ConfigAt(StateAfter(n, log), n, k + 1);
    if !op.Move? {
      JoinLeaveConfigs(n, log, k, seq(n, _ => 0));
      if after.groups != map[] { LiveGroups(after); }
    }
  }

  lemma LiveGroups(config: Config)
    requires Balanced(config.shards, Gids(config.groups)) && config.groups != map[]
    ensures OnGroups(config)
  {
  }

  /** After a Leave exactly the groups that it does not name are there, with their servers, and no shard is left on a group
      that has gone. */
  lemma LeaveRemoves(n: nat, log: seq<Op>, k: nat, before: Config, op: Op, after: Config)
    requires ValidLog(n, log) && Between(n, log, k, before, op, after) && op.Leave?
    ensures after.num == before.num + 1 && |after.shards| == |before.shards| && OnGroups(after)
    ensures forall g :: g in after.groups <==> g in before.groups && g !in op.gids
    ensures forall g :: g in after.groups ==> after.groups[g] == before.groups[g]
  {
    Made(n, log, k, before, op, after);
  }

  /** After a Join every joined group is there with the joined servers, and every other as it was; all shards are on groups. */
  lemma JoinAdds(n: nat, log: seq<Op>, k: nat, before: Config, op: Op, after: Config)
    requires ValidLog(n, log) && Between(n, log, k, before, op, after) && op.Join?
    ensures after.num == before.num + 1 && |after.shards| == |before.shards| && OnGroups(after)
    ensures forall g :: g in after.groups <==> g in before.groups || g in op.servers
    ensures forall g :: g in op.servers ==> after.groups[g] == op.servers[g]
    ensures forall g :: g in before.groups && g !in op.servers ==> after.groups[g] == before.groups[g]
  {
    Made(n, log, k, before, op, after);
  }

  /** A Move takes the named shard to the named group and changes nothing else. */
  lemma MoveMovesOne(n: nat, log: seq<Op>, k: nat, before: Config, op: Op, after: Config)
    requires ValidLog(n, log) && Between(n, log, k, before, op, after) && op.Move?
    ensures after.num == before.num + 1 && after.groups == before.groups && |after.shards| == |before.shards| == n && op.shard < n
    ensures after.shards[op.shard] == op.gid
    ensures forall i :: 0 <= i < n && i != op.shard ==> after.shards[i] == before.shards[i]
  {
    Made(n, log, k, before, op, after);
  }

  // ---------------------------------------------------------------------------------------------
  // Which operations make a configuration
  // ---------------------------------------------------------------------------------------------

  /** An operation of the client with this number or a later one has made a configuration. */
  ghost predicate Seen(ops: seq<Op>, op: Op)
  {
    exists k :: 0 <= k < |ops| && ops[k].clientId == op.clientId && ops[k].commandId >= op.commandId
  }

  lemma SeenMore(ops: seq<Op>, last: Op, op: Op)
    ensures Seen(ops + [last], op) <==> Seen(ops, op) || (last.clientId == op.clientId && last.commandId >= op.commandId)
  {
    var longer := ops + [last];
    if Seen(ops, op) {
      var k :| 0 <= k < |ops| && ops[k].clientId == op.clientId && ops[k].commandId >= op.commandId;
      assert longer[k] == ops[k];
    }
    assert longer[|ops|] == last;
  }

  lemma {:induction false} DuplicateIsSeen(n: nat, log: seq<Op>, op: Op)
    requires ValidLog(n, log)
    ensures Duplicate(StateAfter(n, log), op) <==> Seen(Effective(n, log), op)
  {
    if |log| > 0 {
      var before, last := log[..|log| - 1], log[|log| - 1];
      var m, ops := StateAfter(n, before), Effective(n, before);
      DuplicateIsSeen(n, before, op);
      DuplicateIsSeen(n, before, last);
      hide NextConfig;
      ApplyKeepsChain(m, n, last);
      if MakesConfig(m, last) {
        assert Effective(n, log) == ops + [last];
        SeenMore(ops, last, op);
        if last.clientId == op.clientId && Seen(ops, op) {
          var k :| 0 <= k < |ops| && ops[k].clientId == op.clientId && ops[k].commandId >= op.commandId;
          assert last.commandId > ops[k].commandId;
        }
      } else {
        assert Effective(n, log) == ops + [] == ops;
      }
    }
  }

  /** An operation makes a configuration exactly when it is no Query and none of its client with its number or a later one
      has made one. */
  lemma MakesConfigExactly(n: nat, log: seq<Op>, op: Op)
    requires ValidLog(n, log) && ValidOp(n, op)
    ensures ValidLog(n, log + [op])
    ensures Effective(n, log + [op]) == Effective(n, log) + if !op.Query? && !Seen(Effective(n, log), op) then [op] else []
  {
    var longer := log + [op];
    assert longer[..|longer| - 1] == log;
    DuplicateIsSeen(n, log, op);
  }
}
