/** Applying a log entry keeps the invariant. */
module ShardSteps {
  import opened ShardHandlers
  import opened ShardLane
  import opened ShardSystem
  import opened ShardInvariant

  // ---------------------------------------------------------------------------------------------
  // What a log entry does to the lanes
  // ---------------------------------------------------------------------------------------------

  predicate Updates(group: Group, op: Op)
  {
    op.UpdateConfig? && op.config.num == group.config.num + 1
  }

  predicate Inserts(group: Group, op: Op, i: int)
  {
    && op.InsertShard? && op.shardId == i && 0 <= i < |group.shards|
    && op.configNum == group.config.num && group.shards[i].status == Pulling
  }

  predicate Deletes(group: Group, op: Op, i: int)
  {
    && op.DeleteShard? && op.shardId == i && 0 <= i < |group.shards|
    && op.configNum == group.config.num && group.shards[i].status == Pushing
  }

  predicate Completes(group: Group, op: Op, i: int)
  {
    && op.GCComplete? && op.shardId == i && 0 <= i < |group.shards|
    && op.configNum == group.config.num && group.shards[i].status == GCing
  }

  predicate Affects(group: Group, op: Op, i: int)
  {
    op.ClientOp? && Key2Shard(op.key) == i && 0 <= i < |group.shards| && TakesEffect(group.shards[i], op)
  }

  ghost function EpochAfter(owners: seq<int>, epoch: nat, g: int, group: Group, op: Op, i: int): nat
  {
    if Updates(group, op) && op.config.num < |owners| then BumpEpoch(owners, epoch, g, op.config.num)
    else if Inserts(group, op, i) then op.configNum
    else epoch
  }

  function DataAfter(data: Data, group: Group, op: Op, i: int): Data
  {
    if Affects(group, op, i) then Perform(data, op) else data
  }

  ghost predicate LaneStep(chain: seq<Config>, gids: set<int>, now: map<int, Group>, now': map<int, Group>, i: nat,
                           epoch: nat, epoch': nat, data': Data)
    requires IsChain(chain, gids) && ShapedNow(now, gids) && ShapedNow(now', gids) && i < N_SHARDS
  {
    && LaneInv(Owners(chain, i), LaneOf(now', gids, i), epoch', data')
    && Grows(LaneOf(now, gids, i), LaneOf(now', gids, i)) && epoch <= epoch'
  }

  lemma LaneWith(now: map<int, Group>, gids: set<int>, i: nat, g: int, group: Group)
    requires ShapedNow(now, gids) && g in gids && ValidGroup(group) && i < N_SHARDS
    ensures ShapedNow(now[g := group], gids)
    ensures var lane := LaneOf(now, gids, i);
            LaneOf(now[g := group], gids, i) == Lane(lane.nums[g := group.config.num], lane.cells[g := group.shards[i]])
  {
    var lane, lane' := LaneOf(now, gids, i), LaneOf(now[g := group], gids, i);
    assert lane'.nums == lane.nums[g := group.config.num];
    assert lane'.cells == lane.cells[g := group.shards[i]];
  }

  lemma GrowsWith(lane: Lane, g: int, num: nat, cell: Shard)
    requires lane.nums.Keys == lane.cells.Keys && g in lane.nums && lane.nums[g] <= num
    requires lane.nums[g] == num ==> Later(lane.cells[g], cell)
    ensures Grows(lane, Lane(lane.nums[g := num], lane.cells[g := cell]))
  {
  }

  /** An entry that leaves shard i of the group as it is leaves its lane as it is. */
  lemma Idle(chain: seq<Config>, gids: set<int>, now: map<int, Group>, i: nat, g: int, group: Group, epoch: nat, data: Data)
    requires IsChain(chain, gids) && ShapedNow(now, gids) && g in gids && ValidGroup(group) && i < N_SHARDS
    requires LaneInv(Owners(chain, i), LaneOf(now, gids, i), epoch, data)
    requires group.config.num == now[g].config.num && group.shards[i] == now[g].shards[i]
    ensures ShapedNow(now[g := group], gids) && LaneStep(chain, gids, now, now[g := group], i, epoch, epoch, data)
  {
    var lane := LaneOf(now, gids, i);
    LaneWith(now, gids, i, g, group);
    GrowsWith(lane, g, lane.nums[g], lane.cells[g]);
    assert lane.nums[g := lane.nums[g]] == lane.nums && lane.cells[g := lane.cells[g]] == lane.cells;
  }

  /** An entry that changes only the copy of shard i. */
  lemma OneCell(chain: seq<Config>, gids: set<int>, now: map<int, Group>, i: nat, g: int, group: Group, epoch: nat, epoch': nat, data': Data)
    requires IsChain(chain, gids) && ShapedNow(now, gids) && g in gids && ValidGroup(group) && i < N_SHARDS
    requires group.config.num == now[g].config.num && Later(now[g].shards[i], group.shards[i]) && epoch <= epoch'
    requires LaneInv(Owners(chain, i), WithCell(LaneOf(now, gids, i), g, group.shards[i]), epoch', data')
    ensures ShapedNow(now[g := group], gids) && LaneStep(chain, gids, now, now[g := group], i, epoch, epoch', data')
  {
    var lane := LaneOf(now, gids, i);
    LaneWith(now, gids, i, g, group);
    GrowsWith(lane, g, lane.nums[g], group.shards[i]);
    assert lane.nums[g := lane.nums[g]] == lane.nums;
  }

  /** An entry that takes the group to the next configuration. */
  lemma NextCell(chain: seq<Config>, gids: set<int>, now: map<int, Group>, i: nat, g: int, group: Group, epoch: nat, epoch': nat, data: Data)
    requires IsChain(chain, gids) && ShapedNow(now, gids) && g in gids && ValidGroup(group) && i < N_SHARDS
    requires var owners, n := Owners(chain, i), now[g].config.num;
             && group.config.num == n + 1 < |owners| && epoch <= epoch'
             && group.shards[i] == ConfigShard(g, owners[n], owners[n + 1], now[g].shards[i])
             && LaneInv(owners, BumpLane(owners, LaneOf(now, gids, i), g), epoch', data)
    ensures ShapedNow(now[g := group], gids) && LaneStep(chain, gids, now, now[g := group], i, epoch, epoch', data)
  {
    hide LaneInv, ConfigShard, Grows, IsChain;
    LaneWith(now, gids, i, g, group);
    GrowsWith(LaneOf(now, gids, i), g, group.config.num, group.shards[i]);
  }

  lemma UpdateStep(chain: seq<Config>, gids: set<int>, sys: System, epochs: seq<nat>, datas: seq<Data>, g: int, c: Config, i: nat)
    requires IsChain(chain, gids) && CleanChain(chain, gids) && Inv(chain, gids, sys, epochs, datas) && i < N_SHARDS
    requires g in gids && UpdateConfig(c) in sys.proposed[g] && ValidConfig(c) && Updates(sys.now[g], UpdateConfig(c))
    ensures var now' := sys.now[g := Apply(g, sys.now[g], UpdateConfig(c))];
            && ShapedNow(now', gids) && c.num < |chain|
            && LaneStep(chain, gids, sys.now, now', i, epochs[i], BumpEpoch(Owners(chain, i), epochs[i], g, c.num), datas[i])
  {
    hide LaneInv, Apply, Grows, LaneOk, PastOk, ProposedOk, AppliedOk, CleanChain, OnChain, Stable, BumpEpoch;
    UpdateProposed(chain, gids, sys, epochs, datas, g, c, i);
    UpdatedShard(chain, gids, g, sys.now[g], c, i);
    UpdateLane(chain, gids, sys, epochs, datas, g, c, i);
    NextCell(chain, gids, sys.now, i, g, Apply(g, sys.now[g], UpdateConfig(c)), epochs[i], BumpEpoch(Owners(chain, i), epochs[i], g, c.num), datas[i]);
  }

  lemma UpdateLane(chain: seq<Config>, gids: set<int>, sys: System, epochs: seq<nat>, datas: seq<Data>, g: int, c: Config, i: nat)
    requires IsChain(chain, gids) && CleanChain(chain, gids) && Inv(chain, gids, sys, epochs, datas) && i < N_SHARDS
    requires g in gids && sys.now[g].config.num + 1 == c.num < |chain| && Settled(sys.now[g].shards[i])
    ensures var owners, lane := Owners(chain, i), LaneOf(sys.now, gids, i);
            && LaneInv(owners, BumpLane(owners, lane, g), BumpEpoch(owners, epochs[i], g, c.num), datas[i])
            && BumpEpoch(owners, epochs[i], g, c.num) >= epochs[i]
  {
    hide LaneInv, LaneOk, PastOk, ProposedOk, AppliedOk, OnChain, BumpEpoch;
    LaneHolds(chain, gids, sys, epochs, datas, i);
    Bump(Owners(chain, i), LaneOf(sys.now, gids, i), epochs[i], datas[i], g);
  }

  lemma LaneHolds(chain: seq<Config>, gids: set<int>, sys: System, epochs: seq<nat>, datas: seq<Data>, i: nat)
    requires IsChain(chain, gids) && Inv(chain, gids, sys, epochs, datas) && i < N_SHARDS
    ensures LaneInv(Owners(chain, i), LaneOf(sys.now, gids, i), epochs[i], datas[i])
  {
    assert LaneOk(chain, gids, sys.now, epochs, datas, i);
  }

  lemma UpdatedShard(chain: seq<Config>, gids: set<int>, g: int, group: Group, c: Config, i: nat)
    requires IsChain(chain, gids) && ValidGroup(group) && ValidConfig(c) && Updates(group, UpdateConfig(c)) && i < N_SHARDS
    requires c.num < |chain| && c == chain[c.num] && group.config == chain[c.num - 1]
    ensures var group', owners := Apply(g, group, UpdateConfig(c)), Owners(chain, i);
            && ValidGroup(group') && group'.config.num == c.num
            && group'.shards[i] == ConfigShard(g, owners[c.num - 1], owners[c.num], group.shards[i])
  {
  }

  /** Mid-migration no configuration is applied: the proposal was made at a settled state of the one before. */
  lemma UpdateProposed(chain: seq<Config>, gids: set<int>, sys: System, epochs: seq<nat>, datas: seq<Data>, g: int, c: Config, i: nat)
    requires IsChain(chain, gids) && Inv(chain, gids, sys, epochs, datas) && i < N_SHARDS
    requires g in gids && UpdateConfig(c) in sys.proposed[g] && ValidConfig(c) && Updates(sys.now[g], UpdateConfig(c))
    ensures c.num < |chain| && c == chain[c.num] && sys.now[g].config == chain[c.num - 1] && Stable(sys.now[g])
    ensures Settled(sys.now[g].shards[i])
  {
    assert ProposedOk(chain, gids, sys, epochs, g, UpdateConfig(c));
  }

  lemma InsertStep(chain: seq<Config>, gids: set<int>, sys: System, epochs: seq<nat>, datas: seq<Data>, g: int, op: Op, i: nat)
    requires IsChain(chain, gids) && CleanChain(chain, gids) && Inv(chain, gids, sys, epochs, datas) && i < N_SHARDS
    requires g in gids && op in sys.proposed[g] && ValidOp(op) && Inserts(sys.now[g], op, i)
    ensures var now' := sys.now[g := Apply(g, sys.now[g], op)];
            ShapedNow(now', gids) && LaneStep(chain, gids, sys.now, now', i, epochs[i], op.configNum, datas[i])
  {
    var group := Apply(g, sys.now[g], op);
    hide LaneInv, Apply, LaneOk, PastOk, ProposedOk, AppliedOk, Fetched;
    InsertLane(chain, gids, sys, epochs, datas, g, op, i);
    InsertedShard(g, sys.now[g], op, i);
    OneCell(chain, gids, sys.now, i, g, group, epochs[i], op.configNum, datas[i]);
  }

  lemma InsertedShard(g: int, group: Group, op: Op, i: nat)
    requires ValidGroup(group) && ValidOp(op) && Inserts(group, op, i) && i < N_SHARDS
    ensures var group' := Apply(g, group, op);
            && ValidGroup(group') && group'.config == group.config
            && group'.shards[i] == InsertInto(group.shards[i], op.data) && Later(group.shards[i], group'.shards[i])
  {
  }

  lemma InsertLane(chain: seq<Config>, gids: set<int>, sys: System, epochs: seq<nat>, datas: seq<Data>, g: int, op: Op, i: nat)
    requires IsChain(chain, gids) && CleanChain(chain, gids) && Inv(chain, gids, sys, epochs, datas) && i < N_SHARDS
    requires g in gids && op in sys.proposed[g] && ValidOp(op) && Inserts(sys.now[g], op, i)
    ensures epochs[i] <= op.configNum
    ensures LaneInv(Owners(chain, i), WithCell(LaneOf(sys.now, gids, i), g, InsertInto(sys.now[g].shards[i], op.data)), op.configNum, datas[i])
  {
    assert ProposedOk(chain, gids, sys, epochs, g, op) && LaneOk(chain, gids, sys.now, epochs, datas, i);
    Insert(Owners(chain, i), LaneOf(sys.now, gids, i), epochs[i], datas[i], g, op.configNum, op.data);
  }

  lemma DeleteStep(chain: seq<Config>, gids: set<int>, sys: System, epochs: seq<nat>, datas: seq<Data>, g: int, op: Op, i: nat)
    requires IsChain(chain, gids) && CleanChain(chain, gids) && Inv(chain, gids, sys, epochs, datas) && i < N_SHARDS
    requires g in gids && op in sys.proposed[g] && ValidOp(op) && Deletes(sys.now[g], op, i)
    ensures var now' := sys.now[g := Apply(g, sys.now[g], op)];
            ShapedNow(now', gids) && LaneStep(chain, gids, sys.now, now', i, epochs[i], epochs[i], datas[i])
    ensures Owner(Owners(chain, i), epochs[i]) != g
  {
    var owners, lane, group := Owners(chain, i), LaneOf(sys.now, gids, i), Apply(g, sys.now[g], op);
    assert ProposedOk(chain, gids, sys, epochs, g, op) && LaneOk(chain, gids, sys.now, epochs, datas, i);
    Delete(owners, lane, epochs[i], datas[i], g, op.configNum);
    OneCell(chain, gids, sys.now, i, g, group, epochs[i], epochs[i], datas[i]);
  }

  lemma CompleteStep(chain: seq<Config>, gids: set<int>, sys: System, epochs: seq<nat>, datas: seq<Data>, g: int, op: Op, i: nat)
    requires IsChain(chain, gids) && CleanChain(chain, gids) && Inv(chain, gids, sys, epochs, datas) && i < N_SHARDS
    requires g in gids && op in sys.proposed[g] && ValidOp(op) && Completes(sys.now[g], op, i)
    ensures var now' := sys.now[g := Apply(g, sys.now[g], op)];
            ShapedNow(now', gids) && LaneStep(chain, gids, sys.now, now', i, epochs[i], epochs[i], datas[i])
  {
    var owners, lane, group := Owners(chain, i), LaneOf(sys.now, gids, i), Apply(g, sys.now[g], op);
    assert ProposedOk(chain, gids, sys, epochs, g, op) && LaneOk(chain, gids, sys.now, epochs, datas, i);
    Complete(owners, lane, epochs[i], datas[i], g, op.configNum);
    OneCell(chain, gids, sys.now, i, g, group, epochs[i], epochs[i], datas[i]);
  }

  lemma ClientStep(chain: seq<Config>, gids: set<int>, sys: System, epochs: seq<nat>, datas: seq<Data>, g: int, op: Op, i: nat)
    requires IsChain(chain, gids) && CleanChain(chain, gids) && Inv(chain, gids, sys, epochs, datas) && i < N_SHARDS
    requires g in gids && op.ClientOp? && Key2Shard(op.key) == i
    ensures var now' := sys.now[g := Apply(g, sys.now[g], op)];
            && ShapedNow(now', gids)
            && LaneStep(chain, gids, sys.now, now', i, epochs[i], epochs[i], DataAfter(datas[i], sys.now[g], op, i))
    ensures Affects(sys.now[g], op, i) ==> !Duplicate(datas[i], op)
  {
    var owners, lane, group := Owners(chain, i), LaneOf(sys.now, gids, i), Apply(g, sys.now[g], op);
    assert LaneOk(chain, gids, sys.now, epochs, datas, i);
    Client(owners, lane, epochs[i], datas[i], g, op);
    OneCell(chain, gids, sys.now, i, g, group, epochs[i], epochs[i], DataAfter(datas[i], sys.now[g], op, i));
  }

  /** Any entry, on any lane. */
  lemma CommitLane(chain: seq<Config>, gids: set<int>, sys: System, epochs: seq<nat>, datas: seq<Data>, g: int, op: Op, i: nat)
    requires IsChain(chain, gids) && CleanChain(chain, gids) && Inv(chain, gids, sys, epochs, datas) && i < N_SHARDS
    requires g in gids && op in sys.proposed[g] && ValidOp(op)
    ensures var now' := sys.now[g := Apply(g, sys.now[g], op)];
            && ShapedNow(now', gids)
            && LaneStep(chain, gids, sys.now, now', i, epochs[i], EpochAfter(Owners(chain, i), epochs[i], g, sys.now[g], op, i),
                        DataAfter(datas[i], sys.now[g], op, i))
    ensures Affects(sys.now[g], op, i) ==> !Duplicate(datas[i], op)
  {
    hide LaneStep, LaneInv;
    var group := sys.now[g];
    if Updates(group, op) {
      UpdateStep(chain, gids, sys, epochs, datas, g, op.config, i);
    } else if Inserts(group, op, i) {
      InsertStep(chain, gids, sys, epochs, datas, g, op, i);
    } else if Deletes(group, op, i) {
      DeleteStep(chain, gids, sys, epochs, datas, g, op, i);
    } else if Completes(group, op, i) {
      CompleteStep(chain, gids, sys, epochs, datas, g, op, i);
    } else if op.ClientOp? && Key2Shard(op.key) == i {
      ClientStep(chain, gids, sys, epochs, datas, g, op, i);
    } else {
      ApplyValid(g, group, op);
      assert LaneOk(chain, gids, sys.now, epochs, datas, i);
      Idle(chain, gids, sys.now, i, g, Apply(g, group, op), epochs[i], datas[i]);
    }
  }

  // ---------------------------------------------------------------------------------------------
  // What was promised stays true
  // ---------------------------------------------------------------------------------------------

  ghost predicate AllLanesStep(chain: seq<Config>, gids: set<int>, now: map<int, Group>, now': map<int, Group>,
                               epochs: seq<nat>, epochs': seq<nat>, datas': seq<Data>)
    requires IsChain(chain, gids) && ShapedNow(now, gids) && ShapedNow(now', gids)
    requires |epochs| == |epochs'| == |datas'| == N_SHARDS
  {
    forall i :: 0 <= i < N_SHARDS ==> LaneStep(chain, gids, now, now', i, epochs[i], epochs'[i], datas'[i])
  }

  lemma ProposalStays(chain: seq<Config>, gids: set<int>, now: map<int, Group>, now': map<int, Group>,
                      epochs: seq<nat>, epochs': seq<nat>, datas': seq<Data>, g: int, op: Op)
    requires IsChain(chain, gids) && ShapedNow(now, gids) && ShapedNow(now', gids)
    requires |epochs| == |epochs'| == |datas'| == N_SHARDS
    requires AllLanesStep(chain, gids, now, now', epochs, epochs', datas') && g in gids && ValidOp(op)
    requires ProposalOk(chain, gids, now, epochs, g, op)
    ensures ProposalOk(chain, gids, now', epochs', g, op)
  {
    match op
    case UpdateConfig(c) =>
      forall i | 0 <= i < N_SHARDS
        ensures now[g].config.num <= now'[g].config.num
        ensures now[g].config.num == now'[g].config.num && Settled(now[g].shards[i]) ==> Settled(now'[g].shards[i])
      {
        assert LaneStep(chain, gids, now, now', i, epochs[i], epochs'[i], datas'[i]);
        assert CellGrows(LaneOf(now, gids, i), LaneOf(now', gids, i), g);
      }
      assert now[g].config.num <= now'[g].config.num by {
        assert LaneStep(chain, gids, now, now', 0, epochs[0], epochs'[0], datas'[0]);
        assert CellGrows(LaneOf(now, gids, 0), LaneOf(now', gids, 0), g);
      }
    case InsertShard(i, n, data) =>
      assert LaneStep(chain, gids, now, now', i, epochs[i], epochs'[i], datas'[i]);
      FetchedStays(Owners(chain, i), LaneOf(now, gids, i), epochs[i], LaneOf(now', gids, i), epochs'[i], datas'[i], g, n, data);
    case DeleteShard(i, n) =>
      assert LaneStep(chain, gids, now, now', i, epochs[i], epochs'[i], datas'[i]);
    case GCComplete(i, n) =>
      assert LaneStep(chain, gids, now, now', i, epochs[i], epochs'[i], datas'[i]);
      DeletedStays(Owners(chain, i), LaneOf(now, gids, i), LaneOf(now', gids, i), g, n);
    case ClientOp(_, _, _, _, _) =>
  }

  lemma PastShardStays(chain: seq<Config>, gids: set<int>, now: map<int, Group>, now': map<int, Group>,
                       epochs: seq<nat>, epochs': seq<nat>, datas': seq<Data>, g: int, s: Group, i: int)
    requires IsChain(chain, gids) && ShapedNow(now, gids) && ShapedNow(now', gids)
    requires |epochs| == |epochs'| == |datas'| == N_SHARDS
    requires AllLanesStep(chain, gids, now, now', epochs, epochs', datas') && g in gids && ValidGroup(s)
    requires PastShardOk(chain, gids, now[g], epochs, g, s, i) && s.config.num <= now[g].config.num
    ensures PastShardOk(chain, gids, now'[g], epochs', g, s, i)
    ensures 0 <= i < N_SHARDS ==> now[g].config.num <= now'[g].config.num
  {
    if 0 <= i < N_SHARDS {
      assert LaneStep(chain, gids, now, now', i, epochs[i], epochs'[i], datas'[i]);
      assert CellGrows(LaneOf(now, gids, i), LaneOf(now', gids, i), g);
    }
  }

  /** The state that a group has just come to is a past state from now on. */
  lemma NowIsPast(chain: seq<Config>, gids: set<int>, now: map<int, Group>, epochs: seq<nat>, datas: seq<Data>, g: int, i: int)
    requires IsChain(chain, gids) && ShapedNow(now, gids) && |epochs| == |datas| == N_SHARDS && g in gids
    requires LaneOk(chain, gids, now, epochs, datas, i)
    ensures PastShardOk(chain, gids, now[g], epochs, g, now[g], i)
  {
    if 0 <= i < N_SHARDS { assert GroupFits(Owners(chain, i), LaneOf(now, gids, i), epochs[i], g); }
  }

  lemma DeleteApplied(chain: seq<Config>, gids: set<int>, sys: System, epochs: seq<nat>, datas: seq<Data>, g: int, op: Op)
    requires IsChain(chain, gids) && Inv(chain, gids, sys, epochs, datas)
    requires g in gids && op in sys.proposed[g] && ValidOp(op) && op.DeleteShard?
    ensures var group := Apply(g, sys.now[g], op);
            group.config.num >= op.configNum
            && !(group.config.num == op.configNum && group.shards[op.shardId].status == Pushing)
  {
    var i := op.shardId;
    assert ProposedOk(chain, gids, sys, epochs, g, op) && LaneOk(chain, gids, sys.now, epochs, datas, i);
    CameTo(Owners(chain, i), LaneOf(sys.now, gids, i), epochs[i], g, op.configNum);
  }

  lemma AppliedStays(chain: seq<Config>, gids: set<int>, now: map<int, Group>, now': map<int, Group>,
                     epochs: seq<nat>, epochs': seq<nat>, datas': seq<Data>, g: int, i: nat, n: nat)
    requires IsChain(chain, gids) && ShapedNow(now, gids) && ShapedNow(now', gids)
    requires |epochs| == |epochs'| == |datas'| == N_SHARDS
    requires AllLanesStep(chain, gids, now, now', epochs, epochs', datas') && g in gids && i < N_SHARDS
    requires Behind(LaneOf(now, gids, i), g, n) && !Pushes(LaneOf(now, gids, i), g, n)
    ensures Behind(LaneOf(now', gids, i), g, n) && !Pushes(LaneOf(now', gids, i), g, n)
  {
    assert LaneStep(chain, gids, now, now', i, epochs[i], epochs'[i], datas'[i]);
    assert CellGrows(LaneOf(now, gids, i), LaneOf(now', gids, i), g);
  }

  // ---------------------------------------------------------------------------------------------
  // A commit
  // ---------------------------------------------------------------------------------------------

  ghost function EpochsAfter(chain: seq<Config>, gids: set<int>, epochs: seq<nat>, g: int, group: Group, op: Op): (r: seq<nat>)
    requires IsChain(chain, gids) && |epochs| == N_SHARDS
    ensures |r| == N_SHARDS
  {
    seq(N_SHARDS, i requires 0 <= i < N_SHARDS => EpochAfter(Owners(chain, i), epochs[i], g, group, op, i))
  }

  function DatasAfter(datas: seq<Data>, group: Group, op: Op): (r: seq<Data>)
    requires |datas| == N_SHARDS
    ensures |r| == N_SHARDS
  {
    seq(N_SHARDS, i requires 0 <= i < N_SHARDS => DataAfter(datas[i], group, op, i))
  }

  lemma CommitLanes(chain: seq<Config>, gids: set<int>, sys: System, epochs: seq<nat>, datas: seq<Data>, g: int, op: Op)
    requires IsChain(chain, gids) && CleanChain(chain, gids) && Inv(chain, gids, sys, epochs, datas)
    requires g in gids && op in sys.proposed[g] && ValidOp(op)
    ensures var now' := sys.now[g := Apply(g, sys.now[g], op)];
            && ShapedNow(now', gids)
            && AllLanesStep(chain, gids, sys.now, now', epochs, EpochsAfter(chain, gids, epochs, g, sys.now[g], op),
                            DatasAfter(datas, sys.now[g], op))
  {
    hide LaneStep;
    CommitLane(chain, gids, sys, epochs, datas, g, op, 0);
    forall i: nat | i < N_SHARDS
      ensures LaneStep(chain, gids, sys.now, sys.now[g := Apply(g, sys.now[g], op)], i, epochs[i],
                       EpochAfter(Owners(chain, i), epochs[i], g, sys.now[g], op, i), DataAfter(datas[i], sys.now[g], op, i))
    {
      CommitLane(chain, gids, sys, epochs, datas, g, op, i);
    }
  }

  lemma CommitPast(chain: seq<Config>, gids: set<int>, sys: System, epochs: seq<nat>, datas: seq<Data>, g: int, op: Op,
                   epochs': seq<nat>, datas': seq<Data>, g': int, s: Group)
    requires IsChain(chain, gids) && Inv(chain, gids, sys, epochs, datas)
    requires g in gids && op in sys.proposed[g] && ValidOp(op) && |epochs'| == |datas'| == N_SHARDS
    requires var sys' := Committed(sys, g, op, Apply(g, sys.now[g], op));
             && WellShaped(sys', gids) && AllLanesStep(chain, gids, sys.now, sys'.now, epochs, epochs', datas')
             && OnChain(chain, sys'.now[g])
    ensures PastOk(chain, gids, Committed(sys, g, op, Apply(g, sys.now[g], op)), epochs', g', s)
  {
    var sys' := Committed(sys, g, op, Apply(g, sys.now[g], op));
    hide LaneInv;
    if g' in gids && s in sys'.past[g'] {
      if s in sys.past[g'] {
        assert PastOk(chain, gids, sys, epochs, g', s);
        forall i
          ensures PastShardOk(chain, gids, sys'.now[g'], epochs', g', s, i)
          ensures 0 <= i < N_SHARDS ==> sys.now[g'].config.num <= sys'.now[g'].config.num
        {
          PastShardStays(chain, gids, sys.now, sys'.now, epochs, epochs', datas', g', s, i);
        }
        PastShardStays(chain, gids, sys.now, sys'.now, epochs, epochs', datas', g', s, 0);
      } else {
        forall i
          ensures PastShardOk(chain, gids, sys'.now[g'], epochs', g', s, i)
        {
          if 0 <= i < N_SHARDS { assert LaneStep(chain, gids, sys.now, sys'.now, i, epochs[i], epochs'[i], datas'[i]); }
          NowIsPast(chain, gids, sys'.now, epochs', datas', g', i);
        }
      }
    }
  }

  lemma CommitApplied(chain: seq<Config>, gids: set<int>, sys: System, epochs: seq<nat>, datas: seq<Data>, g: int, op: Op,
                      epochs': seq<nat>, datas': seq<Data>, g': int, op': Op)
    requires IsChain(chain, gids) && Inv(chain, gids, sys, epochs, datas)
    requires g in gids && op in sys.proposed[g] && ValidOp(op) && |epochs'| == |datas'| == N_SHARDS
    requires var sys' := Committed(sys, g, op, Apply(g, sys.now[g], op));
             WellShaped(sys', gids) && AllLanesStep(chain, gids, sys.now, sys'.now, epochs, epochs', datas')
    ensures AppliedOk(chain, gids, Committed(sys, g, op, Apply(g, sys.now[g], op)), g', op')
  {
    hide LaneInv, AllLanesStep, LaneOk, PastOk, ProposedOk, AppliedOk, OnChain, Apply;
    var sys' := Committed(sys, g, op, Apply(g, sys.now[g], op));
    assert AppliedOk(chain, gids, sys, g', op');
    if g' in gids && op' in sys.applied[g'] {
      AppliedBefore(chain, gids, sys, sys', epochs, epochs', datas', g', op');
    } else if g' == g && op' == op && op.DeleteShard? {
      DeleteApplied(chain, gids, sys, epochs, datas, g, op);
      AppliedJustNow(chain, gids, sys', g, op);
    } else {
      NotApplied(chain, gids, sys', g', op');
    }
  }

  lemma AppliedBefore(chain: seq<Config>, gids: set<int>, sys: System, sys': System, epochs: seq<nat>, epochs': seq<nat>,
                      datas': seq<Data>, g: int, op: Op)
    requires IsChain(chain, gids) && WellShaped(sys, gids) && WellShaped(sys', gids)
    requires |epochs| == |epochs'| == |datas'| == N_SHARDS && AllLanesStep(chain, gids, sys.now, sys'.now, epochs, epochs', datas')
    requires g in gids && op in sys.applied[g] && AppliedOk(chain, gids, sys, g, op)
    ensures AppliedOk(chain, gids, sys', g, op)
  {
    hide AllLanesStep;
    if op.DeleteShard? && op.shardId < N_SHARDS {
      AppliedStays(chain, gids, sys.now, sys'.now, epochs, epochs', datas', g, op.shardId, op.configNum);
    }
  }

  lemma AppliedJustNow(chain: seq<Config>, gids: set<int>, sys: System, g: int, op: Op)
    requires IsChain(chain, gids) && WellShaped(sys, gids) && g in gids && op.DeleteShard? && op.shardId < N_SHARDS
    requires sys.now[g].config.num >= op.configNum
    requires !(sys.now[g].config.num == op.configNum && sys.now[g].shards[op.shardId].status == Pushing)
    ensures AppliedOk(chain, gids, sys, g, op)
  {
  }

  lemma NotApplied(chain: seq<Config>, gids: set<int>, sys: System, g: int, op: Op)
    requires IsChain(chain, gids) && WellShaped(sys, gids)
    requires g in gids && op in sys.applied[g] ==> !op.DeleteShard?
    ensures AppliedOk(chain, gids, sys, g, op)
  {
  }

  lemma CommitOnChain(chain: seq<Config>, gids: set<int>, sys: System, epochs: seq<nat>, datas: seq<Data>, g: int, op: Op)
    requires IsChain(chain, gids) && Inv(chain, gids, sys, epochs, datas)
    requires g in gids && op in sys.proposed[g] && ValidOp(op)
    ensures OnChain(chain, Apply(g, sys.now[g], op))
  {
    hide LaneInv, LaneOk, PastOk, AppliedOk, Stable, CleanChain;
    if Updates(sys.now[g], op) { UpdateProposed(chain, gids, sys, epochs, datas, g, op.config, 0); }
  }

  lemma CommitProposed(chain: seq<Config>, gids: set<int>, sys: System, epochs: seq<nat>, datas: seq<Data>, g: int, op: Op,
                       epochs': seq<nat>, datas': seq<Data>, g': int, op': Op)
    requires IsChain(chain, gids) && Inv(chain, gids, sys, epochs, datas)
    requires g in gids && op in sys.proposed[g] && ValidOp(op) && |epochs'| == |datas'| == N_SHARDS
    requires var sys' := Committed(sys, g, op, Apply(g, sys.now[g], op));
             WellShaped(sys', gids) && AllLanesStep(chain, gids, sys.now, sys'.now, epochs, epochs', datas')
    ensures ProposedOk(chain, gids, Committed(sys, g, op, Apply(g, sys.now[g], op)), epochs', g', op')
  {
    hide LaneInv, AllLanesStep, LaneOk, PastOk, AppliedOk, OnChain, Apply, ProposalOk;
    assert ProposedOk(chain, gids, sys, epochs, g', op');
    if g' in gids && op' in sys.proposed[g'] {
      ProposalStays(chain, gids, sys.now, sys.now[g := Apply(g, sys.now[g], op)], epochs, epochs', datas', g', op');
    }
  }

  lemma CommitLaneOk(chain: seq<Config>, gids: set<int>, sys: System, epochs: seq<nat>, datas: seq<Data>, g: int, op: Op,
                     epochs': seq<nat>, datas': seq<Data>, i: int)
    requires IsChain(chain, gids) && Inv(chain, gids, sys, epochs, datas)
    requires g in gids && op in sys.proposed[g] && ValidOp(op) && |epochs'| == |datas'| == N_SHARDS
    requires var sys' := Committed(sys, g, op, Apply(g, sys.now[g], op));
             WellShaped(sys', gids) && AllLanesStep(chain, gids, sys.now, sys'.now, epochs, epochs', datas')
    ensures LaneOk(chain, gids, sys.now[g := Apply(g, sys.now[g], op)], epochs', datas', i)
  {
    hide LaneInv, PastOk, ProposedOk, AppliedOk, OnChain, Apply;
    if 0 <= i < N_SHARDS {
      assert LaneStep(chain, gids, sys.now, sys.now[g := Apply(g, sys.now[g], op)], i, epochs[i], epochs'[i], datas'[i]);
    }
  }

  lemma CommitShaped(chain: seq<Config>, gids: set<int>, sys: System, epochs: seq<nat>, datas: seq<Data>, g: int, op: Op)
    requires IsChain(chain, gids) && Inv(chain, gids, sys, epochs, datas)
    requires g in gids && op in sys.proposed[g] && ValidOp(op)
    ensures WellShaped(Committed(sys, g, op, Apply(g, sys.now[g], op)), gids)
  {
    hide LaneOk, PastOk, ProposedOk, AppliedOk, OnChain, Apply;
    ApplyValid(g, sys.now[g], op);
  }

  /** Applying a log entry keeps the invariant. */
  lemma CommitKeeps(chain: seq<Config>, gids: set<int>, sys: System, epochs: seq<nat>, datas: seq<Data>, g: int, op: Op)
    requires IsChain(chain, gids) && CleanChain(chain, gids) && Inv(chain, gids, sys, epochs, datas)
    requires g in gids && op in sys.proposed[g] && ValidOp(op)
    ensures Inv(chain, gids, Committed(sys, g, op, Apply(g, sys.now[g], op)),
                EpochsAfter(chain, gids, epochs, g, sys.now[g], op), DatasAfter(datas, sys.now[g], op))
  {
    hide EpochsAfter, DatasAfter, LaneOk, PastOk, ProposedOk, AppliedOk, OnChain, Apply, AllLanesStep, CleanChain;
    var sys' := Committed(sys, g, op, Apply(g, sys.now[g], op));
    var epochs', datas' := EpochsAfter(chain, gids, epochs, g, sys.now[g], op), DatasAfter(datas, sys.now[g], op);
    CommitShaped(chain, gids, sys, epochs, datas, g, op);
    CommitLanes(chain, gids, sys, epochs, datas, g, op);
    CommitOnChain(chain, gids, sys, epochs, datas, g, op);
    forall i
      ensures LaneOk(chain, gids, sys'.now, epochs', datas', i)
    {
      CommitLaneOk(chain, gids, sys, epochs, datas, g, op, epochs', datas', i);
    }
    forall g', op'
      ensures ProposedOk(chain, gids, sys', epochs', g', op') && AppliedOk(chain, gids, sys', g', op')
    {
      CommitProposed(chain, gids, sys, epochs, datas, g, op, epochs', datas', g', op');
      CommitApplied(chain, gids, sys, epochs, datas, g, op, epochs', datas', g', op');
    }
    forall g', s
      ensures PastOk(chain, gids, sys', epochs', g', s)
    {
      CommitPast(chain, gids, sys, epochs, datas, g, op, epochs', datas', g', s);
    }
  }
}
