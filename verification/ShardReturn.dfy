/** A shard that was left without a group and then goes to another group than the one that had it last is served
    twice: that group starts with nothing, and the old one never stopped. For every such chain of configurations
    there is a run that shows it. */
module ShardReturn {
  import opened ShardHandlers
  import opened ShardLane
  import opened ShardSystem
  import opened ShardInvariant
  import opened ShardSafety

  // ---------------------------------------------------------------------------------------------
  // Building runs
  // ---------------------------------------------------------------------------------------------

  lemma Extend(chain: seq<Config>, gids: set<int>, run: seq<Event>, e: Event)
    requires IsChain(chain, gids) && IsRun(chain, gids, run) && Enabled(chain, gids, StateAfter(chain, gids, run), e)
    ensures IsRun(chain, gids, run + [e])
    ensures StateAfter(chain, gids, run + [e]) == After(chain, gids, StateAfter(chain, gids, run), e)
  {
    assert (run + [e])[..|run|] == run;
  }

  lemma {:induction false} NowIsSeen(chain: seq<Config>, gids: set<int>, run: seq<Event>, g: int)
    requires IsChain(chain, gids) && IsRun(chain, gids, run) && g in gids
    ensures var sys := StateAfter(chain, gids, run); sys.now[g] in sys.past[g]
  {
    hide IsChain, Enabled;
    if |run| > 0 {
      NowIsSeen(chain, gids, run[..|run| - 1], g);
      SeenAfter(chain, gids, StateAfter(chain, gids, run[..|run| - 1]), run[|run| - 1], g);
    }
  }

  lemma SeenAfter(chain: seq<Config>, gids: set<int>, sys: System, e: Event, g: int)
    requires IsChain(chain, gids) && WellShaped(sys, gids) && Enabled(chain, gids, sys, e) && g in gids
    requires sys.now[g] in sys.past[g]
    ensures WellShaped(After(chain, gids, sys, e), gids)
    ensures var sys' := After(chain, gids, sys, e); sys'.now[g] in sys'.past[g]
  {
    hide Apply;
    StaysShaped(chain, gids, sys, e);
  }

  /** The states of the groups after a run. */
  ghost function NowAfter(chain: seq<Config>, gids: set<int>, run: seq<Event>): (now: map<int, Group>)
    requires IsChain(chain, gids)
    ensures ShapedNow(now, gids) && now.Keys == gids && forall g :: g in gids ==> ValidGroup(now[g])
  {
    StateAfter(chain, gids, run).now
  }

  /** A ticker proposes an entry and it is applied at once. */
  lemma Do(chain: seq<Config>, gids: set<int>, run: seq<Event>, e: Event, g: int, op: Op) returns (run': seq<Event>)
    requires IsChain(chain, gids) && IsRun(chain, gids, run) && g in gids && ValidOp(op)
    requires var sys := StateAfter(chain, gids, run);
             Enabled(chain, gids, sys, e) && After(chain, gids, sys, e) == Propose(sys, g, op)
    ensures IsRun(chain, gids, run')
    ensures var now := NowAfter(chain, gids, run); NowAfter(chain, gids, run') == now[g := Apply(g, now[g], op)]
    ensures op in StateAfter(chain, gids, run').applied[g]
  {
    var sys, c := StateAfter(chain, gids, run), Commit(g, op);
    Extend(chain, gids, run, e);
    var sys1 := StateAfter(chain, gids, run + [e]);
    assert op in sys1.proposed[g];
    assert Enabled(chain, gids, sys1, c);
    Extend(chain, gids, run + [e], c);
    run' := run + [e] + [c];
  }

  // ---------------------------------------------------------------------------------------------
  // All groups at rest
  // ---------------------------------------------------------------------------------------------

  /** The status of a group's shard when nothing is on the move. */
  function RestStatus(owners: seq<int>, m: nat, g: int): Status
    requires m < |owners|
  {
    if Owner(owners, m) == g then Serving else Invalid
  }

  predicate Moves(owners: seq<int>, m: nat)
  {
    0 < m < |owners| && owners[m] != 0 && owners[m - 1] != 0 && owners[m] != owners[m - 1]
  }

  /** The status right after the group has come to configuration m. */
  function FreshStatus(owners: seq<int>, m: nat, g: int): Status
    requires m < |owners|
  {
    if Moves(owners, m) then
      if owners[m] == g then Pulling else if owners[m - 1] == g then Pushing else Invalid
    else RestStatus(owners, m, g)
  }

  /** The group has come to configuration m and has finished moving the first k shards. */
  ghost predicate Arrived(chain: seq<Config>, gids: set<int>, group: Group, g: int, m: nat, k: nat)
    requires IsChain(chain, gids)
  {
    && ValidGroup(group) && OnChain(chain, group) && group.config.num == m
    && forall i :: StatusAt(chain, gids, group, g, m, k, i)
  }

  ghost predicate StatusAt(chain: seq<Config>, gids: set<int>, group: Group, g: int, m: nat, k: nat, i: int)
    requires IsChain(chain, gids) && ValidGroup(group) && m < |chain|
  {
    0 <= i < N_SHARDS ==>
      group.shards[i].status == if i < k then RestStatus(Owners(chain, i), m, g) else FreshStatus(Owners(chain, i), m, g)
  }

  ghost predicate AllArrived(chain: seq<Config>, gids: set<int>, run: seq<Event>, m: nat, k: nat)
    requires IsChain(chain, gids)
  {
    IsRun(chain, gids, run) && forall g :: g in gids ==> Arrived(chain, gids, NowAfter(chain, gids, run)[g], g, m, k)
  }

  // ---------------------------------------------------------------------------------------------
  // All groups to the next configuration
  // ---------------------------------------------------------------------------------------------

  /** At rest in configuration m, the group may go on to the next. */
  lemma UpdateOne(chain: seq<Config>, gids: set<int>, run: seq<Event>, m: nat, g: int) returns (run': seq<Event>)
    requires IsChain(chain, gids) && IsRun(chain, gids, run) && g in gids && m + 1 < |chain|
    requires Arrived(chain, gids, NowAfter(chain, gids, run)[g], g, m, N_SHARDS)
    ensures IsRun(chain, gids, run')
    ensures var now := NowAfter(chain, gids, run);
            NowAfter(chain, gids, run') == now[g := Apply(g, now[g], UpdateConfig(chain[m + 1]))]
  {
    hide *;
    RestIsStable(chain, gids, NowAfter(chain, gids, run)[g], g, m);
    run' := DoAsk(chain, gids, run, g);
  }

  lemma DoAsk(chain: seq<Config>, gids: set<int>, run: seq<Event>, g: int) returns (run': seq<Event>)
    requires IsChain(chain, gids) && IsRun(chain, gids, run) && g in gids
    requires var group := NowAfter(chain, gids, run)[g]; Stable(group) && group.config.num + 1 < |chain|
    ensures IsRun(chain, gids, run')
    ensures var now := NowAfter(chain, gids, run);
            NowAfter(chain, gids, run') == now[g := Apply(g, now[g], UpdateConfig(chain[now[g].config.num + 1]))]
  {
    hide IsChain, IsRun, StateAfter, Apply, Stable;
    var group := NowAfter(chain, gids, run)[g];
    NowIsSeen(chain, gids, run, g);
    ConfigIsValid(chain, gids, group.config.num + 1);
    run' := Do(chain, gids, run, AskConfig(g, group), g, UpdateConfig(chain[group.config.num + 1]));
  }

  lemma ConfigIsValid(chain: seq<Config>, gids: set<int>, m: nat)
    requires IsChain(chain, gids) && m < |chain|
    ensures ValidOp(UpdateConfig(chain[m]))
  {
  }

  lemma RestIsStable(chain: seq<Config>, gids: set<int>, group: Group, g: int, m: nat)
    requires IsChain(chain, gids) && Arrived(chain, gids, group, g, m, N_SHARDS)
    ensures Stable(group) && group.config.num == m && ValidGroup(group)
  {
    forall i | 0 <= i < N_SHARDS
      ensures Settled(group.shards[i])
    {
      assert StatusAt(chain, gids, group, g, m, N_SHARDS, i);
    }
  }

  lemma UpdatedArrives(chain: seq<Config>, gids: set<int>, group: Group, g: int, m: nat)
    requires IsChain(chain, gids) && g in gids && m + 1 < |chain| && Arrived(chain, gids, group, g, m, N_SHARDS)
    requires forall i :: 0 <= i < N_SHARDS ==> CleanAt(Owners(chain, i), m)
    ensures Arrived(chain, gids, Apply(g, group, UpdateConfig(chain[m + 1])), g, m + 1, 0)
  {
    var m' := m + 1;
    var group' := Apply(g, group, UpdateConfig(chain[m']));
    forall i
      ensures StatusAt(chain, gids, group', g, m', 0, i)
    {
      if 0 <= i < N_SHARDS {
        assert StatusAt(chain, gids, group, g, m, N_SHARDS, i);
        assert CleanAt(Owners(chain, i), m);
      }
    }
  }

  /** Halfway: the groups in `todo` have yet to update. */
  ghost predicate Updating(chain: seq<Config>, gids: set<int>, run: seq<Event>, m: nat, todo: set<int>)
    requires IsChain(chain, gids)
  {
    && IsRun(chain, gids, run)
    && forall g :: g in gids ==>
         if g in todo then Arrived(chain, gids, NowAfter(chain, gids, run)[g], g, m, N_SHARDS)
         else Arrived(chain, gids, NowAfter(chain, gids, run)[g], g, m + 1, 0)
  }

  lemma {:induction false} UpdateAll(chain: seq<Config>, gids: set<int>, run: seq<Event>, m: nat, todo: set<int>) returns (run': seq<Event>)
    requires IsChain(chain, gids) && m + 1 < |chain| && todo <= gids && Updating(chain, gids, run, m, todo)
    requires forall i :: 0 <= i < N_SHARDS ==> CleanAt(Owners(chain, i), m)
    ensures AllArrived(chain, gids, run', m + 1, 0)
    decreases |todo|
  {
    hide *;
    if todo == {} {
      UpdatingNone(chain, gids, run, m);
      run' := run;
    } else {
      var g := Some(todo);
      UpdatingHas(chain, gids, run, m, todo, g);
      var run1 := UpdateOne(chain, gids, run, m, g);
      UpdatedArrives(chain, gids, NowAfter(chain, gids, run)[g], g, m);
      UpdatingLess(chain, gids, run, run1, m, todo, g);
      run' := UpdateAll(chain, gids, run1, m, todo - {g});
    }
  }

  lemma UpdatingNone(chain: seq<Config>, gids: set<int>, run: seq<Event>, m: nat)
    requires IsChain(chain, gids) && Updating(chain, gids, run, m, {})
    ensures AllArrived(chain, gids, run, m + 1, 0)
  {
    hide Arrived, IsRun, IsChain, NowAfter;
  }

  lemma UpdatingHas(chain: seq<Config>, gids: set<int>, run: seq<Event>, m: nat, todo: set<int>, g: int)
    requires IsChain(chain, gids) && m + 1 < |chain| && todo <= gids && g in todo && Updating(chain, gids, run, m, todo)
    ensures g in gids && IsRun(chain, gids, run) && Arrived(chain, gids, NowAfter(chain, gids, run)[g], g, m, N_SHARDS)
  {
    hide Arrived, IsRun, IsChain, NowAfter;
  }

  lemma UpdatingLess(chain: seq<Config>, gids: set<int>, run: seq<Event>, run': seq<Event>, m: nat, todo: set<int>, g: int)
    requires IsChain(chain, gids) && m + 1 < |chain| && todo <= gids && g in todo && Updating(chain, gids, run, m, todo)
    requires IsRun(chain, gids, run')
    requires var now, now' := NowAfter(chain, gids, run), NowAfter(chain, gids, run');
             now' == now[g := now'[g]] && Arrived(chain, gids, now'[g], g, m + 1, 0)
    ensures Updating(chain, gids, run', m, todo - {g})
  {
    hide Arrived, IsRun, IsChain, NowAfter;
  }

  // ---------------------------------------------------------------------------------------------
  // One shard after the other to its new group
  // ---------------------------------------------------------------------------------------------

  /** Only shard k differs, and it has the given status. */
  ghost predicate OnlyShard(group: Group, group': Group, k: nat, status: Status)
  {
    && ValidGroup(group) && ValidGroup(group') && k < N_SHARDS
    && group'.config == group.config && group'.lastConfig == group.lastConfig && group'.shards[k].status == status
    && forall i :: 0 <= i < N_SHARDS && i != k ==> group'.shards[i] == group.shards[i]
  }

  lemma DoFetch(chain: seq<Config>, gids: set<int>, run: seq<Event>, w: int, o: int, k: nat) returns (run': seq<Event>, group: Group)
    requires IsChain(chain, gids) && IsRun(chain, gids, run) && w in gids && o in gids && k < N_SHARDS
    requires var now := NowAfter(chain, gids, run);
             && now[w].shards[k].status == Pulling && now[w].lastConfig.shards[k] == o
             && now[o].config.num >= now[w].config.num
    ensures IsRun(chain, gids, run')
    ensures var now := NowAfter(chain, gids, run);
            NowAfter(chain, gids, run') == now[w := group] && OnlyShard(now[w], group, k, GCing)
  {
    hide IsChain, IsRun, StateAfter;
    var now := NowAfter(chain, gids, run);
    NowIsSeen(chain, gids, run, w);
    NowIsSeen(chain, gids, run, o);
    var op := InsertShard(k, now[w].config.num, now[o].shards[k].data);
    run' := Do(chain, gids, run, Fetch(w, now[w], k, now[o]), w, op);
    group := Apply(w, now[w], op);
  }

  lemma DoDelete(chain: seq<Config>, gids: set<int>, run: seq<Event>, w: int, o: int, k: nat) returns (run': seq<Event>, group: Group)
    requires IsChain(chain, gids) && IsRun(chain, gids, run) && w in gids && o in gids && k < N_SHARDS
    requires var now := NowAfter(chain, gids, run);
             && now[w].shards[k].status == GCing && now[w].lastConfig.shards[k] == o
             && now[o].config.num == now[w].config.num && now[o].shards[k].status == Pushing
    ensures IsRun(chain, gids, run')
    ensures var now := NowAfter(chain, gids, run);
            && NowAfter(chain, gids, run') == now[o := group] && OnlyShard(now[o], group, k, Invalid)
            && DeleteShard(k, now[w].config.num) in StateAfter(chain, gids, run').applied[o]
  {
    hide IsChain, IsRun, StateAfter;
    var now := NowAfter(chain, gids, run);
    NowIsSeen(chain, gids, run, w);
    var op := DeleteShard(k, now[w].config.num);
    run' := Do(chain, gids, run, SendDelete(w, now[w], k), o, op);
    group := Apply(o, now[o], op);
  }

  lemma DoComplete(chain: seq<Config>, gids: set<int>, run: seq<Event>, w: int, o: int, k: nat) returns (run': seq<Event>, group: Group)
    requires IsChain(chain, gids) && IsRun(chain, gids, run) && w in gids && o in gids && k < N_SHARDS
    requires var now := NowAfter(chain, gids, run);
             && now[w].shards[k].status == GCing && now[w].lastConfig.shards[k] == o
             && DeleteShard(k, now[w].config.num) in StateAfter(chain, gids, run).applied[o]
    ensures IsRun(chain, gids, run')
    ensures var now := NowAfter(chain, gids, run);
            NowAfter(chain, gids, run') == now[w := group] && OnlyShard(now[w], group, k, Serving)
  {
    hide IsChain, IsRun, StateAfter;
    var now := NowAfter(chain, gids, run);
    NowIsSeen(chain, gids, run, w);
    var op := GCComplete(k, now[w].config.num);
    run' := Do(chain, gids, run, DeleteAcknowledged(w, now[w], k), w, op);
    group := Apply(w, now[w], op);
  }

  lemma MoveGroups(chain: seq<Config>, gids: set<int>, m: nat, k: nat)
    requires IsChain(chain, gids) && m < |chain| && k < N_SHARDS && Moves(Owners(chain, k), m)
    ensures var owners := Owners(chain, k);
            && 0 < m < |owners| && owners[m] in gids && owners[m - 1] in gids && owners[m] != owners[m - 1]
            && RestStatus(owners, m, owners[m]) == Serving && RestStatus(owners, m, owners[m - 1]) == Invalid
            && FreshStatus(owners, m, owners[m]) == Pulling && FreshStatus(owners, m, owners[m - 1]) == Pushing
  {
    assert AssignedTo(chain, gids, m, k) && AssignedTo(chain, gids, m - 1, k);
  }

  lemma FreshAt(chain: seq<Config>, gids: set<int>, run: seq<Event>, m: nat, k: nat, g: int)
    requires IsChain(chain, gids) && 0 < m < |chain| && k < N_SHARDS && AllArrived(chain, gids, run, m, k) && g in gids
    ensures var group := NowAfter(chain, gids, run)[g];
            && group.config.num == m && ValidGroup(group) && group.lastConfig == chain[m - 1]
            && group.shards[k].status == FreshStatus(Owners(chain, k), m, g)
  {
    hide FreshStatus, RestStatus;
    var group := NowAfter(chain, gids, run)[g];
    assert Arrived(chain, gids, group, g, m, k);
    assert StatusAt(chain, gids, group, g, m, k, k);
  }

  /** The groups of a move, and where they are when it starts. */
  lemma MoveStarts(chain: seq<Config>, gids: set<int>, run: seq<Event>, m: nat, k: nat)
    requires IsChain(chain, gids) && m < |chain| && k < N_SHARDS && AllArrived(chain, gids, run, m, k)
    requires Moves(Owners(chain, k), m)
    ensures var w, o, now := Owners(chain, k)[m], Owners(chain, k)[m - 1], NowAfter(chain, gids, run);
            && w in gids && o in gids && w != o && 0 < m < |Owners(chain, k)|
            && RestStatus(Owners(chain, k), m, w) == Serving && RestStatus(Owners(chain, k), m, o) == Invalid
            && now[w].config.num == m && now[o].config.num == m && now[w].lastConfig.shards[k] == o
            && now[w].shards[k].status == Pulling && now[o].shards[k].status == Pushing
  {
    hide IsRun, StateAfter, Owner, AllArrived, Moves;
    MoveGroups(chain, gids, m, k);
    var w, o := Owners(chain, k)[m], Owners(chain, k)[m - 1];
    hide FreshStatus, RestStatus, AllArrived, NowAfter;
    FreshAt(chain, gids, run, m, k, w);
    FreshAt(chain, gids, run, m, k, o);
  }

  lemma MovedArrived(chain: seq<Config>, gids: set<int>, group: Group, group': Group, g: int, m: nat, k: nat)
    requires IsChain(chain, gids) && m < |chain| && k < N_SHARDS && Arrived(chain, gids, group, g, m, k)
    requires OnlyShard(group, group', k, RestStatus(Owners(chain, k), m, g))
    ensures Arrived(chain, gids, group', g, m, k + 1)
  {
    var k' := k + 1;
    forall i
      ensures StatusAt(chain, gids, group', g, m, k', i)
    {
      assert StatusAt(chain, gids, group, g, m, k, i);
    }
  }

  lemma MoveDone(chain: seq<Config>, gids: set<int>, run: seq<Event>, run': seq<Event>, m: nat, k: nat)
    requires IsChain(chain, gids) && m < |chain| && k < N_SHARDS && AllArrived(chain, gids, run, m, k) && IsRun(chain, gids, run')
    requires forall g :: g in gids ==>
               OnlyShard(NowAfter(chain, gids, run)[g], NowAfter(chain, gids, run')[g], k, RestStatus(Owners(chain, k), m, g))
    ensures AllArrived(chain, gids, run', m, k + 1)
  {
    forall g | g in gids
      ensures Arrived(chain, gids, NowAfter(chain, gids, run')[g], g, m, k + 1)
    {
      assert Arrived(chain, gids, NowAfter(chain, gids, run)[g], g, m, k);
      MovedArrived(chain, gids, NowAfter(chain, gids, run)[g], NowAfter(chain, gids, run')[g], g, m, k);
    }
  }

  /** A group that has no part in the move already has the status it will rest in. */
  lemma Bystander(chain: seq<Config>, gids: set<int>, run: seq<Event>, m: nat, k: nat, g: int)
    requires IsChain(chain, gids) && m < |chain| && k < N_SHARDS && AllArrived(chain, gids, run, m, k) && g in gids
    requires Moves(Owners(chain, k), m) ==> g != Owners(chain, k)[m] && g != Owners(chain, k)[m - 1]
    ensures var group := NowAfter(chain, gids, run)[g]; OnlyShard(group, group, k, RestStatus(Owners(chain, k), m, g))
  {
    var group := NowAfter(chain, gids, run)[g];
    assert Arrived(chain, gids, group, g, m, k);
    assert StatusAt(chain, gids, group, g, m, k, k);
  }

  lemma MoveOne(chain: seq<Config>, gids: set<int>, run: seq<Event>, m: nat, k: nat) returns (run': seq<Event>)
    requires IsChain(chain, gids) && m < |chain| && k < N_SHARDS && AllArrived(chain, gids, run, m, k)
    ensures AllArrived(chain, gids, run', m, k + 1)
  {
    var owners, now := Owners(chain, k), NowAfter(chain, gids, run);
    if Moves(owners, m) {
      run' := MoveShard(chain, gids, run, m, k);
    } else {
      run' := run;
      forall g | g in gids
        ensures OnlyShard(now[g], now[g], k, RestStatus(owners, m, g))
      {
        Bystander(chain, gids, run, m, k, g);
      }
    }
    MoveDone(chain, gids, run, run', m, k);
  }

  /** Fetch and insert, then delete. */
  lemma FetchAndDelete(chain: seq<Config>, gids: set<int>, run: seq<Event>, w: int, o: int, k: nat)
    returns (run': seq<Event>, w': Group, o': Group)
    requires IsChain(chain, gids) && IsRun(chain, gids, run) && w in gids && o in gids && w != o && k < N_SHARDS
    requires var now := NowAfter(chain, gids, run);
             && now[w].config.num == now[o].config.num && now[w].lastConfig.shards[k] == o
             && now[w].shards[k].status == Pulling && now[o].shards[k].status == Pushing
    ensures IsRun(chain, gids, run')
    ensures var now := NowAfter(chain, gids, run);
            && NowAfter(chain, gids, run') == now[w := w'][o := o']
            && OnlyShard(now[w], w', k, GCing) && OnlyShard(now[o], o', k, Invalid)
            && DeleteShard(k, w'.config.num) in StateAfter(chain, gids, run').applied[o]
  {
    hide IsChain, IsRun, NowAfter, StateAfter;
    var run1;
    run1, w' := DoFetch(chain, gids, run, w, o, k);
    run', o' := DoDelete(chain, gids, run1, w, o, k);
  }

  lemma SwapUpdates(now: map<int, Group>, w: int, o: int, w1: Group, o1: Group, w2: Group)
    requires w != o
    ensures now[w := w1][o := o1][w := w2] == now[w := w2][o := o1]
  {
  }

  lemma OnlyShardTwice(a: Group, b: Group, c: Group, k: nat, s: Status, t: Status)
    requires OnlyShard(a, b, k, s) && OnlyShard(b, c, k, t)
    ensures OnlyShard(a, c, k, t)
  {
  }

  /** Fetch and insert, delete, complete. */
  lemma HandOver(chain: seq<Config>, gids: set<int>, run: seq<Event>, w: int, o: int, k: nat)
    returns (run': seq<Event>, w': Group, o': Group)
    requires IsChain(chain, gids) && IsRun(chain, gids, run) && w in gids && o in gids && w != o && k < N_SHARDS
    requires var now := NowAfter(chain, gids, run);
             && now[w].config.num == now[o].config.num && now[w].lastConfig.shards[k] == o
             && now[w].shards[k].status == Pulling && now[o].shards[k].status == Pushing
    ensures IsRun(chain, gids, run')
    ensures var now := NowAfter(chain, gids, run);
            && NowAfter(chain, gids, run') == now[w := w'][o := o']
            && OnlyShard(now[w], w', k, Serving) && OnlyShard(now[o], o', k, Invalid)
  {
    hide IsChain, IsRun, NowAfter, StateAfter;
    var now := NowAfter(chain, gids, run);
    var run1, w1;
    run1, w1, o' := FetchAndDelete(chain, gids, run, w, o, k);
    run', w' := DoComplete(chain, gids, run1, w, o, k);
    hide OnlyShard;
    SwapUpdates(now, w, o, w1, o', w');
    OnlyShardTwice(now[w], w1, w', k, GCing, Serving);
  }

  lemma HandedOver(gids: set<int>, now: map<int, Group>, now': map<int, Group>, w: int, o: int, k: nat, owners: seq<int>, m: nat)
    requires ShapedNow(now, gids) && ShapedNow(now', gids) && w in gids && o in gids && m < |owners|
    requires now' == now[w := now'[w]][o := now'[o]]
    requires forall g :: g in gids && g != w && g != o ==> OnlyShard(now[g], now[g], k, RestStatus(owners, m, g))
    requires OnlyShard(now[w], now'[w], k, RestStatus(owners, m, w)) && OnlyShard(now[o], now'[o], k, RestStatus(owners, m, o))
    ensures forall g :: g in gids ==> OnlyShard(now[g], now'[g], k, RestStatus(owners, m, g))
  {
    hide OnlyShard, RestStatus;
  }

  lemma MoveShard(chain: seq<Config>, gids: set<int>, run: seq<Event>, m: nat, k: nat) returns (run': seq<Event>)
    requires IsChain(chain, gids) && m < |chain| && k < N_SHARDS && AllArrived(chain, gids, run, m, k) && Moves(Owners(chain, k), m)
    ensures IsRun(chain, gids, run')
    ensures forall g :: g in gids ==>
              OnlyShard(NowAfter(chain, gids, run)[g], NowAfter(chain, gids, run')[g], k, RestStatus(Owners(chain, k), m, g))
  {
    hide NowAfter, StateAfter, OnlyShard, RestStatus, AllArrived, Moves, IsRun;
    var owners, now := Owners(chain, k), NowAfter(chain, gids, run);
    hide *;
    MoveStarts(chain, gids, run, m, k);
    var w, o := owners[m], owners[m - 1];
    Bystanders(chain, gids, run, m, k);
    AllArrivedRun(chain, gids, run, m, k);
    var w', o';
    run', w', o' := HandOver(chain, gids, run, w, o, k);
    HandedOver(gids, now, NowAfter(chain, gids, run'), w, o, k, owners, m);
  }

  lemma Bystanders(chain: seq<Config>, gids: set<int>, run: seq<Event>, m: nat, k: nat)
    requires IsChain(chain, gids) && m < |chain| && k < N_SHARDS && AllArrived(chain, gids, run, m, k) && Moves(Owners(chain, k), m)
    ensures forall g :: g in gids && g != Owners(chain, k)[m] && g != Owners(chain, k)[m - 1] ==>
              OnlyShard(NowAfter(chain, gids, run)[g], NowAfter(chain, gids, run)[g], k, RestStatus(Owners(chain, k), m, g))
  {
    var owners, now := Owners(chain, k), NowAfter(chain, gids, run);
    hide OnlyShard, AllArrived, RestStatus, NowAfter, StateAfter, IsChain;
    forall g | g in gids && g != owners[m] && g != owners[m - 1]
      ensures OnlyShard(now[g], now[g], k, RestStatus(owners, m, g))
    {
      Bystander(chain, gids, run, m, k, g);
    }
  }

  lemma AllArrivedRun(chain: seq<Config>, gids: set<int>, run: seq<Event>, m: nat, k: nat)
    requires IsChain(chain, gids) && AllArrived(chain, gids, run, m, k)
    ensures IsRun(chain, gids, run)
  {
  }

  lemma {:induction false} MoveAll(chain: seq<Config>, gids: set<int>, run: seq<Event>, m: nat, k: nat) returns (run': seq<Event>)
    requires IsChain(chain, gids) && m < |chain| && k <= N_SHARDS && AllArrived(chain, gids, run, m, k)
    ensures AllArrived(chain, gids, run', m, N_SHARDS)
    decreases N_SHARDS - k
  {
    hide *;
    if k == N_SHARDS {
      run' := run;
    } else {
      var run1 := MoveOne(chain, gids, run, m, k);
      run' := MoveAll(chain, gids, run1, m, k + 1);
    }
  }

  /** From rest in one configuration to rest in the next. */
  lemma Advance(chain: seq<Config>, gids: set<int>, run: seq<Event>, m: nat) returns (run': seq<Event>)
    requires IsChain(chain, gids) && m + 1 < |chain| && AllArrived(chain, gids, run, m, N_SHARDS)
    requires forall i :: 0 <= i < N_SHARDS ==> CleanAt(Owners(chain, i), m)
    ensures AllArrived(chain, gids, run', m + 1, N_SHARDS)
  {
    AllToUpdate(chain, gids, run, m);
    hide *;
    var run1 := UpdateAll(chain, gids, run, m, gids);
    run' := MoveAll(chain, gids, run1, m + 1, 0);
  }

  lemma AllToUpdate(chain: seq<Config>, gids: set<int>, run: seq<Event>, m: nat)
    requires IsChain(chain, gids) && AllArrived(chain, gids, run, m, N_SHARDS)
    ensures Updating(chain, gids, run, m, gids)
  {
    hide Arrived, IsRun, NowAfter;
  }

  // ---------------------------------------------------------------------------------------------
  // The theorem
  // ---------------------------------------------------------------------------------------------

  /** After the run two groups serve shard i. */
  ghost predicate ServedTwice(chain: seq<Config>, gids: set<int>, run: seq<Event>, i: nat, g: int, h: int)
    requires IsChain(chain, gids)
  {
    && IsRun(chain, gids, run) && i < N_SHARDS && g in gids && h in gids && g != h
    && Serves(NowAfter(chain, gids, run)[g].shards[i]) && Serves(NowAfter(chain, gids, run)[h].shards[i])
  }

  ghost predicate Violated(chain: seq<Config>, gids: set<int>)
    requires IsChain(chain, gids)
  {
    exists run, i: nat, g, h :: ServedTwice(chain, gids, run, i, g, h)
  }

  /** From rest, the new group of a shard that comes back unclean serves it at once, beside the old one. */
  lemma ServesBoth(chain: seq<Config>, gids: set<int>, run: seq<Event>, m: nat, i: nat)
    requires IsChain(chain, gids) && m + 1 < |chain| && AllArrived(chain, gids, run, m, N_SHARDS)
    requires i < N_SHARDS && !CleanAt(Owners(chain, i), m)
    ensures Violated(chain, gids)
  {
    hide NowAfter, Owner, Owners, Serves;
    var owners := Owners(chain, i);
    var g, h := Owner(owners, m), owners[m + 1];
    UncleanGroups(chain, gids, m, i);
    UncleanRest(chain, gids, run, m, i);
    AllArrivedRun(chain, gids, run, m, N_SHARDS);
    assert Arrived(chain, gids, NowAfter(chain, gids, run)[h], h, m, N_SHARDS);
    var run' := UpdateOne(chain, gids, run, m, h);
    assert ServedTwice(chain, gids, run', i, g, h);
  }

  lemma UncleanGroups(chain: seq<Config>, gids: set<int>, m: nat, i: nat)
    requires IsChain(chain, gids) && m + 1 < |chain| && i < N_SHARDS && !CleanAt(Owners(chain, i), m)
    ensures var owners := Owners(chain, i);
            Owner(owners, m) in gids && owners[m + 1] in gids && Owner(owners, m) != owners[m + 1] && owners[m] == 0
  {
    var owners := Owners(chain, i);
    assert AssignedTo(chain, gids, m + 1, i);
    OwnerAssigned(owners, m);
    var n :| 0 <= n < |owners| && owners[n] == Owner(owners, m);
    assert AssignedTo(chain, gids, n, i);
  }

  lemma UncleanRest(chain: seq<Config>, gids: set<int>, run: seq<Event>, m: nat, i: nat)
    requires IsChain(chain, gids) && m + 1 < |chain| && AllArrived(chain, gids, run, m, N_SHARDS) && i < N_SHARDS
    requires var owners := Owners(chain, i);
             Owner(owners, m) in gids && owners[m + 1] in gids && Owner(owners, m) != owners[m + 1] && owners[m] == 0
    ensures var now, g, h := NowAfter(chain, gids, run), Owner(Owners(chain, i), m), Owners(chain, i)[m + 1];
            && Serves(now[g].shards[i]) && now[h].config == chain[m]
            && Serves(Apply(h, now[h], UpdateConfig(chain[m + 1])).shards[i])
  {
    hide IsRun, NowAfter, Owner, OnlyShard, LaneInv;
    var now, g, h := NowAfter(chain, gids, run), Owner(Owners(chain, i), m), Owners(chain, i)[m + 1];
    assert Arrived(chain, gids, now[g], g, m, N_SHARDS) && Arrived(chain, gids, now[h], h, m, N_SHARDS);
    assert StatusAt(chain, gids, now[g], g, m, N_SHARDS, i);
  }

  /** Follows the chain to configuration m, or to a violation on the way. */
  lemma {:induction false} Follow(chain: seq<Config>, gids: set<int>, m: nat) returns (run: seq<Event>)
    requires IsChain(chain, gids) && m < |chain|
    ensures Violated(chain, gids) || (AllArrived(chain, gids, run, m, N_SHARDS) && CleanUpTo(chain, gids, m))
  {
    if m == 0 {
      run := [];
      StartArrived(chain, gids);
    } else {
      run := Follow(chain, gids, m - 1);
      hide *;
      if !Violated(chain, gids) {
        var bad, i := AnyUnclean(chain, gids, m - 1);
        if bad {
          ServesBoth(chain, gids, run, m - 1, i);
        } else {
          run := Advance(chain, gids, run, m - 1);
          CleanFurther(chain, gids, m - 1);
        }
      }
    }
  }

  ghost predicate CleanUpTo(chain: seq<Config>, gids: set<int>, m: nat)
    requires IsChain(chain, gids)
  {
    forall i, n: nat :: 0 <= i < N_SHARDS && n < m ==> CleanAt(Owners(chain, i), n)
  }

  lemma AnyUnclean(chain: seq<Config>, gids: set<int>, m: nat) returns (bad: bool, i: nat)
    requires IsChain(chain, gids)
    ensures bad ==> i < N_SHARDS && !CleanAt(Owners(chain, i), m)
    ensures !bad ==> forall i :: 0 <= i < N_SHARDS ==> CleanAt(Owners(chain, i), m)
  {
    hide CleanAt;
    bad, i := false, 0;
    if exists i: nat :: i < N_SHARDS && !CleanAt(Owners(chain, i), m) {
      bad := true;
      i :| i < N_SHARDS && !CleanAt(Owners(chain, i), m);
    }
  }

  lemma CleanFurther(chain: seq<Config>, gids: set<int>, m: nat)
    requires IsChain(chain, gids) && CleanUpTo(chain, gids, m)
    requires forall i :: 0 <= i < N_SHARDS ==> CleanAt(Owners(chain, i), m)
    ensures CleanUpTo(chain, gids, m + 1)
  {
    hide CleanAt;
  }

  lemma StartArrived(chain: seq<Config>, gids: set<int>)
    requires IsChain(chain, gids)
    ensures AllArrived(chain, gids, [], 0, N_SHARDS)
  {
    forall g | g in gids
      ensures Arrived(chain, gids, Initial(), g, 0, N_SHARDS)
    {
    }
  }

  /** Exclusive ownership holds in every run exactly for the chains in which a shard that was left without a group
      comes back to the group that had it last. */
  lemma ExclusiveExactly(chain: seq<Config>, gids: set<int>)
    requires IsChain(chain, gids)
    ensures CleanChain(chain, gids) <==>
            forall run, i: nat, g, h :: !ServedTwice(chain, gids, run, i, g, h)
  {
    if CleanChain(chain, gids) {
      forall run, i: nat, g, h
        ensures !ServedTwice(chain, gids, run, i, g, h)
      {
        if ServedTwice(chain, gids, run, i, g, h) { ExclusiveOwnership(chain, gids, run, i, g, h); }
      }
    }
    var run := Follow(chain, gids, |chain| - 1);
    if !Violated(chain, gids) {
      CleanAll(chain, gids);
    }
  }

  lemma CleanAll(chain: seq<Config>, gids: set<int>)
    requires IsChain(chain, gids) && CleanUpTo(chain, gids, |chain| - 1)
    ensures CleanChain(chain, gids)
  {
    forall i, n | 0 <= i < N_SHARDS
      ensures CleanAt(Owners(chain, i), n)
    {
      if 0 <= n < |chain| - 1 {
        var n': nat := n;
        assert CleanAt(Owners(chain, i), n');
      }
    }
  }

  lemma Some<T>(s: set<T>) returns (x: T)
    requires s != {}
    ensures x in s
  {
    x :| x in s;
  }
}
