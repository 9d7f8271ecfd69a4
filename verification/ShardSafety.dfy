/** What holds in every run of the sharded store, if a shard that was left without a group comes back to the
    group that had it. */
module ShardSafety {
  import opened ShardHandlers
  import opened ShardLane
  import opened ShardSystem
  import opened ShardInvariant
  import opened ShardSteps

  ghost predicate Ledger(chain: seq<Config>, gids: set<int>, run: seq<Event>, datas: seq<Data>, i: int)
    requires IsChain(chain, gids) && |datas| == N_SHARDS
  {
    0 <= i < N_SHARDS ==>
      datas[i] == Fold(Effects(chain, gids, run, i)) && Increasing(Effects(chain, gids, run, i))
  }

  lemma {:induction false} RunInv(chain: seq<Config>, gids: set<int>, run: seq<Event>) returns (epochs: seq<nat>, datas: seq<Data>)
    requires IsChain(chain, gids) && CleanChain(chain, gids) && IsRun(chain, gids, run)
    ensures Inv(chain, gids, StateAfter(chain, gids, run), epochs, datas)
    ensures forall i :: Ledger(chain, gids, run, datas, i)
  {
    hide Inv;
    if |run| == 0 {
      epochs, datas := seq(N_SHARDS, _ => 0), seq(N_SHARDS, _ => EMPTY);
      Starts(chain, gids);
      InvShape(chain, gids, Start(gids), epochs, datas);
    } else {
      var before, e := run[..|run| - 1], run[|run| - 1];
      var epochs0, datas0 := RunInv(chain, gids, before);
      var sys := StateAfter(chain, gids, before);
      InvShape(chain, gids, sys, epochs0, datas0);
      if e.Commit? {
        epochs, datas := EpochsAfter(chain, gids, epochs0, e.gid, sys.now[e.gid], e.op), DatasAfter(datas0, sys.now[e.gid], e.op);
        CommitKeeps(chain, gids, sys, epochs0, datas0, e.gid, e.op);
        forall i
          ensures Ledger(chain, gids, run, datas, i)
        {
          LedgerCommit(chain, gids, run, epochs0, datas0, i);
        }
      } else {
        epochs, datas := epochs0, datas0;
        OtherKeeps(chain, gids, sys, epochs0, datas0, e);
        forall i
          ensures Ledger(chain, gids, run, datas, i)
        {
          LedgerOther(chain, gids, run, datas, i);
        }
      }
    }
  }

  lemma InvShape(chain: seq<Config>, gids: set<int>, sys: System, epochs: seq<nat>, datas: seq<Data>)
    requires IsChain(chain, gids) && Inv(chain, gids, sys, epochs, datas)
    ensures WellShaped(sys, gids) && |epochs| == |datas| == N_SHARDS
  {
  }

  // ---------------------------------------------------------------------------------------------
  // Events that only propose
  // ---------------------------------------------------------------------------------------------

  lemma AskConfigKeeps(chain: seq<Config>, gids: set<int>, sys: System, epochs: seq<nat>, datas: seq<Data>, g: int, s: Group)
    requires IsChain(chain, gids) && CleanChain(chain, gids) && WellShaped(sys, gids) && Inv(chain, gids, sys, epochs, datas)
    requires Enabled(chain, gids, sys, AskConfig(g, s))
    ensures Inv(chain, gids, Propose(sys, g, UpdateConfig(chain[s.config.num + 1])), epochs, datas)
  {
    InvShape(chain, gids, sys, epochs, datas);
    hide Inv, ProposalOk, IsChain, CleanChain, Enabled;
    NextIsValid(chain, gids, sys, g, s);
    AskConfigOk(chain, gids, sys, epochs, datas, g, s);
    ProposeKeeps(chain, gids, sys, epochs, datas, g, UpdateConfig(chain[s.config.num + 1]));
  }

  lemma NextIsValid(chain: seq<Config>, gids: set<int>, sys: System, g: int, s: Group)
    requires IsChain(chain, gids) && WellShaped(sys, gids) && Enabled(chain, gids, sys, AskConfig(g, s))
    ensures s.config.num + 1 < |chain| && ValidConfig(chain[s.config.num + 1]) && g in gids
  {
  }

  lemma FetchKeeps(chain: seq<Config>, gids: set<int>, sys: System, epochs: seq<nat>, datas: seq<Data>, g: int, s: Group, i: nat, t: Group)
    requires IsChain(chain, gids) && CleanChain(chain, gids) && WellShaped(sys, gids) && Inv(chain, gids, sys, epochs, datas)
    requires Enabled(chain, gids, sys, Fetch(g, s, i, t))
    ensures Inv(chain, gids, After(chain, gids, sys, Fetch(g, s, i, t)), epochs, datas)
  {
    InvShape(chain, gids, sys, epochs, datas);
    hide Inv, ProposalOk;
    FetchOk(chain, gids, sys, epochs, datas, g, s, i, t);
    ProposeKeeps(chain, gids, sys, epochs, datas, g, InsertShard(i, s.config.num, t.shards[i].data));
  }

  lemma SendDeleteKeeps(chain: seq<Config>, gids: set<int>, sys: System, epochs: seq<nat>, datas: seq<Data>, g: int, s: Group, i: nat)
    requires IsChain(chain, gids) && CleanChain(chain, gids) && WellShaped(sys, gids) && Inv(chain, gids, sys, epochs, datas)
    requires Enabled(chain, gids, sys, SendDelete(g, s, i))
    ensures Inv(chain, gids, After(chain, gids, sys, SendDelete(g, s, i)), epochs, datas)
  {
    InvShape(chain, gids, sys, epochs, datas);
    hide Inv, ProposalOk;
    SendDeleteOk(chain, gids, sys, epochs, datas, g, s, i);
    ProposeKeeps(chain, gids, sys, epochs, datas, OldGid(s, i), DeleteShard(i, s.config.num));
  }

  lemma DeleteAcknowledgedKeeps(chain: seq<Config>, gids: set<int>, sys: System, epochs: seq<nat>, datas: seq<Data>, g: int, s: Group, i: nat)
    requires IsChain(chain, gids) && CleanChain(chain, gids) && WellShaped(sys, gids) && Inv(chain, gids, sys, epochs, datas)
    requires Enabled(chain, gids, sys, DeleteAcknowledged(g, s, i))
    ensures Inv(chain, gids, After(chain, gids, sys, DeleteAcknowledged(g, s, i)), epochs, datas)
  {
    InvShape(chain, gids, sys, epochs, datas);
    hide Inv, ProposalOk;
    DeleteAcknowledgedOk(chain, gids, sys, epochs, datas, g, s, i);
    ProposeKeeps(chain, gids, sys, epochs, datas, g, GCComplete(i, s.config.num));
  }

  lemma RequestKeeps(chain: seq<Config>, gids: set<int>, sys: System, epochs: seq<nat>, datas: seq<Data>, g: int, op: Op)
    requires IsChain(chain, gids) && CleanChain(chain, gids) && WellShaped(sys, gids) && Inv(chain, gids, sys, epochs, datas)
    requires Enabled(chain, gids, sys, Request(g, op))
    ensures Inv(chain, gids, After(chain, gids, sys, Request(g, op)), epochs, datas)
  {
    InvShape(chain, gids, sys, epochs, datas);
    hide Inv, ProposalOk;
    RequestOk(chain, gids, sys, epochs, g, op);
    ProposeKeeps(chain, gids, sys, epochs, datas, g, op);
  }

  lemma OtherKeeps(chain: seq<Config>, gids: set<int>, sys: System, epochs: seq<nat>, datas: seq<Data>, e: Event)
    requires IsChain(chain, gids) && CleanChain(chain, gids) && WellShaped(sys, gids) && Inv(chain, gids, sys, epochs, datas)
    requires Enabled(chain, gids, sys, e) && !e.Commit?
    ensures Inv(chain, gids, After(chain, gids, sys, e), epochs, datas)
  {
    hide Inv, Enabled, Propose;
    match e
    case AskConfig(g, s) => AskConfigKeeps(chain, gids, sys, epochs, datas, g, s);
    case Fetch(g, s, i, t) => FetchKeeps(chain, gids, sys, epochs, datas, g, s, i, t);
    case SendDelete(g, s, i) => SendDeleteKeeps(chain, gids, sys, epochs, datas, g, s, i);
    case DeleteAcknowledged(g, s, i) => DeleteAcknowledgedKeeps(chain, gids, sys, epochs, datas, g, s, i);
    case Request(g, op) => RequestKeeps(chain, gids, sys, epochs, datas, g, op);
  }

  lemma RequestOk(chain: seq<Config>, gids: set<int>, sys: System, epochs: seq<nat>, g: int, op: Op)
    requires IsChain(chain, gids) && WellShaped(sys, gids) && |epochs| == N_SHARDS && g in gids && op.ClientOp?
    ensures ProposalOk(chain, gids, sys.now, epochs, g, op)
  {
  }

  lemma LedgerOther(chain: seq<Config>, gids: set<int>, run: seq<Event>, datas: seq<Data>, i: int)
    requires IsChain(chain, gids) && |run| > 0 && |datas| == N_SHARDS && !run[|run| - 1].Commit?
    requires Ledger(chain, gids, run[..|run| - 1], datas, i)
    ensures Ledger(chain, gids, run, datas, i)
  {
    var before := run[..|run| - 1];
    assert Effects(chain, gids, run, i) == Effects(chain, gids, before, i) + [] == Effects(chain, gids, before, i);
  }

  lemma LedgerCommit(chain: seq<Config>, gids: set<int>, run: seq<Event>, epochs: seq<nat>, datas: seq<Data>, i: int)
    requires IsChain(chain, gids) && CleanChain(chain, gids) && |run| > 0 && IsRun(chain, gids, run) && run[|run| - 1].Commit?
    requires Inv(chain, gids, StateAfter(chain, gids, run[..|run| - 1]), epochs, datas)
    requires Ledger(chain, gids, run[..|run| - 1], datas, i)
    ensures var e := run[|run| - 1];
            Ledger(chain, gids, run, DatasAfter(datas, StateAfter(chain, gids, run[..|run| - 1]).now[e.gid], e.op), i)
  {
    hide IsChain, CleanChain, EpochsAfter, Perform;
    var before, e := run[..|run| - 1], run[|run| - 1];
    var sys, ops := StateAfter(chain, gids, before), Effects(chain, gids, before, i);
    InvShape(chain, gids, sys, epochs, datas);
    hide Inv, Enabled;
    if 0 <= i < N_SHARDS {
      if HasEffect(sys, e, i) {
        EffectIsNew(chain, gids, sys, epochs, datas, e, i);
        StaysIncreasing(ops, e.op);
        assert Effects(chain, gids, run, i) == ops + [e.op];
      } else {
        assert Effects(chain, gids, run, i) == ops + [] == ops;
        assert e.gid in sys.now by { assert Enabled(chain, gids, sys, e); EnabledShape(chain, gids, sys, e); }
        assert ValidGroup(sys.now[e.gid]);
      }
    }
  }

  lemma EnabledShape(chain: seq<Config>, gids: set<int>, sys: System, e: Event)
    requires IsChain(chain, gids) && WellShaped(sys, gids) && Enabled(chain, gids, sys, e)
    ensures e.gid in sys.now && ValidGroup(sys.now[e.gid])
    ensures e.Commit? ==> e.op in sys.proposed[e.gid] && ValidOp(e.op)
  {
  }

  lemma EffectIsNew(chain: seq<Config>, gids: set<int>, sys: System, epochs: seq<nat>, datas: seq<Data>, e: Event, i: nat)
    requires IsChain(chain, gids) && CleanChain(chain, gids) && Inv(chain, gids, sys, epochs, datas) && i < N_SHARDS
    requires e.gid in gids && HasEffect(sys, e, i)
    ensures !Duplicate(datas[i], e.op) && Affects(sys.now[e.gid], e.op, i)
  {
    ClientStep(chain, gids, sys, epochs, datas, e.gid, e.op, i);
  }

  // ---------------------------------------------------------------------------------------------
  // The theorems
  // ---------------------------------------------------------------------------------------------

  /** In every reachable state at most one group serves a shard. */
  lemma ExclusiveOwnership(chain: seq<Config>, gids: set<int>, run: seq<Event>, i: nat, g: int, g': int)
    requires IsChain(chain, gids) && CleanChain(chain, gids) && IsRun(chain, gids, run) && i < N_SHARDS && g in gids && g' in gids
    requires var now := StateAfter(chain, gids, run).now; Serves(now[g].shards[i]) && Serves(now[g'].shards[i])
    ensures g == g'
  {
    var epochs, datas := RunInv(chain, gids, run);
    var sys := StateAfter(chain, gids, run);
    LaneHolds(chain, gids, sys, epochs, datas, i);
    ServingHolds(Owners(chain, i), LaneOf(sys.now, gids, i), epochs[i], datas[i], g);
    ServingHolds(Owners(chain, i), LaneOf(sys.now, gids, i), epochs[i], datas[i], g');
  }

  /** No group applies its next configuration while any of its shards is on the move, although applying checks only
      the number. */
  lemma NoUpdateMidMigration(chain: seq<Config>, gids: set<int>, run: seq<Event>, g: int, c: Config)
    requires IsChain(chain, gids) && CleanChain(chain, gids) && IsRun(chain, gids, run + [Commit(g, UpdateConfig(c))])
    requires g in gids && c.num == StateAfter(chain, gids, run).now[g].config.num + 1
    ensures Stable(StateAfter(chain, gids, run).now[g])
  {
    var longer := run + [Commit(g, UpdateConfig(c))];
    assert longer[..|longer| - 1] == run;
    var epochs, datas := RunInv(chain, gids, run);
    var sys := StateAfter(chain, gids, run);
    EnabledShape(chain, gids, sys, Commit(g, UpdateConfig(c)));
    UpdateProposed(chain, gids, sys, epochs, datas, g, c, 0);
  }

  /** A copy that is served is what the operations that took effect on the shard, over all groups, have built. */
  lemma ServedCopyIsComplete(chain: seq<Config>, gids: set<int>, run: seq<Event>, i: nat, g: int)
    requires IsChain(chain, gids) && CleanChain(chain, gids) && IsRun(chain, gids, run) && i < N_SHARDS && g in gids
    requires Serves(StateAfter(chain, gids, run).now[g].shards[i])
    ensures StateAfter(chain, gids, run).now[g].shards[i].data == Fold(Effects(chain, gids, run, i))
  {
    var epochs, datas := RunInv(chain, gids, run);
    var sys := StateAfter(chain, gids, run);
    LaneHolds(chain, gids, sys, epochs, datas, i);
    ServingHolds(Owners(chain, i), LaneOf(sys.now, gids, i), epochs[i], datas[i], g);
    assert Ledger(chain, gids, run, datas, i);
  }

  /** Once any operation has taken effect, there always is a complete copy, served or about to be handed on. */
  lemma NeverLost(chain: seq<Config>, gids: set<int>, run: seq<Event>, i: nat) returns (g: int)
    requires IsChain(chain, gids) && CleanChain(chain, gids) && IsRun(chain, gids, run) && i < N_SHARDS
    requires |Effects(chain, gids, run, i)| > 0
    ensures g in gids
    ensures var sh := StateAfter(chain, gids, run).now[g].shards[i];
            (Serves(sh) || sh.status == Pushing) && sh.data == Fold(Effects(chain, gids, run, i))
  {
    var epochs, datas := RunInv(chain, gids, run);
    var sys := StateAfter(chain, gids, run);
    g := Holder(chain, gids, run, epochs, datas, i);
    LaneHolds(chain, gids, sys, epochs, datas, i);
    HolderStatus(Owners(chain, i), LaneOf(sys.now, gids, i), epochs[i], datas[i], g);
  }

  lemma Holder(chain: seq<Config>, gids: set<int>, run: seq<Event>, epochs: seq<nat>, datas: seq<Data>, i: nat) returns (g: int)
    requires IsChain(chain, gids) && i < N_SHARDS && |Effects(chain, gids, run, i)| > 0
    requires Inv(chain, gids, StateAfter(chain, gids, run), epochs, datas) && Ledger(chain, gids, run, datas, i)
    ensures epochs[i] < |chain| && g == Owner(Owners(chain, i), epochs[i]) && g in gids
    ensures StateAfter(chain, gids, run).now[g].shards[i].data == Fold(Effects(chain, gids, run, i))
  {
    var sys, ops := StateAfter(chain, gids, run), Effects(chain, gids, run, i);
    LaneHolds(chain, gids, sys, epochs, datas, i);
    g := Owner(Owners(chain, i), epochs[i]);
    FoldSeq(ops, |ops| - 1);
  }

  /** Each client's commands take effect on a shard in increasing order, whatever groups it goes through. */
  lemma CommandsIncrease(chain: seq<Config>, gids: set<int>, run: seq<Event>, i: nat)
    requires IsChain(chain, gids) && CleanChain(chain, gids) && IsRun(chain, gids, run) && i < N_SHARDS
    ensures Increasing(Effects(chain, gids, run, i))
  {
    var epochs, datas := RunInv(chain, gids, run);
    assert Ledger(chain, gids, run, datas, i);
  }

  /** No operation takes effect twice, on any shard or group. */
  lemma AtMostOnce(chain: seq<Config>, gids: set<int>, run: seq<Event>, i: nat, i': nat, j: nat, k: nat)
    requires IsChain(chain, gids) && CleanChain(chain, gids) && IsRun(chain, gids, run) && i < N_SHARDS && i' < N_SHARDS
    requires j < |Effects(chain, gids, run, i)| && k < |Effects(chain, gids, run, i')|
    requires Effects(chain, gids, run, i)[j] == Effects(chain, gids, run, i')[k]
    ensures i == i' && j == k
  {
    CommandsIncrease(chain, gids, run, i);
  }

  /** When a deletion erases a copy, another group has the complete one. */
  lemma DeleteKeepsData(chain: seq<Config>, gids: set<int>, run: seq<Event>, g: int, i: nat, n: nat) returns (holder: int)
    requires IsChain(chain, gids) && CleanChain(chain, gids) && IsRun(chain, gids, run + [Commit(g, DeleteShard(i, n))])
    requires g in gids && i < N_SHARDS && |Effects(chain, gids, run, i)| > 0
    requires var group := StateAfter(chain, gids, run).now[g]; group.config.num == n && group.shards[i].status == Pushing
    ensures holder in gids && holder != g
    ensures var sh := StateAfter(chain, gids, run).now[holder].shards[i];
            (Serves(sh) || sh.status == Pushing) && sh.data == Fold(Effects(chain, gids, run, i))
  {
    var longer := run + [Commit(g, DeleteShard(i, n))];
    assert longer[..|longer| - 1] == run;
    var epochs, datas := RunInv(chain, gids, run);
    var sys := StateAfter(chain, gids, run);
    holder := Holder(chain, gids, run, epochs, datas, i);
    EnabledShape(chain, gids, sys, Commit(g, DeleteShard(i, n)));
    DeleteStep(chain, gids, sys, epochs, datas, g, DeleteShard(i, n), i);
    LaneHolds(chain, gids, sys, epochs, datas, i);
    HolderStatus(Owners(chain, i), LaneOf(sys.now, gids, i), epochs[i], datas[i], holder);
  }

  /** A copy that is being pushed is never orphaned: the group it goes to has yet to come to that configuration, or
      is pulling it, or has it and has yet to say that it may be deleted. */
  lemma PushingIsAwaited(chain: seq<Config>, gids: set<int>, run: seq<Event>, g: int, i: nat) returns (h: int)
    requires IsChain(chain, gids) && CleanChain(chain, gids) && IsRun(chain, gids, run) && g in gids && i < N_SHARDS
    requires StateAfter(chain, gids, run).now[g].shards[i].status == Pushing
    ensures var now := StateAfter(chain, gids, run).now;
            var n := now[g].config.num;
            && n < |chain| && h == chain[n].shards[i] && h in gids && h != g
            && (now[h].config.num < n ||
                (now[h].config.num == n && (now[h].shards[i].status == Pulling || now[h].shards[i].status == GCing)))
  {
    var epochs, datas := RunInv(chain, gids, run);
    var sys := StateAfter(chain, gids, run);
    InvShape(chain, gids, sys, epochs, datas);
    LaneHolds(chain, gids, sys, epochs, datas, i);
    hide Inv, LaneInv, Effects, StateAfter;
    h := Receiver(Owners(chain, i), LaneOf(sys.now, gids, i), epochs[i], datas[i], g);
  }
}
