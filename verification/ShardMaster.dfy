/** The service that numbers configurations: the allocator on an array, and the state machine that appends one
    configuration for each new Join, Leave or Move. */
module ShardMaster {
  import opened Rebalance
  import opened RebalanceSteps

  type Groups = map<int, seq<string>>

  datatype Config = Config(num: nat, shards: seq<int>, groups: Groups)

  datatype Op =
    | Join(clientId: int, commandId: int, servers: Groups)
    | Leave(clientId: int, commandId: int, gids: seq<int>)
    | Move(clientId: int, commandId: int, shard: nat, gid: int)
    | Query(clientId: int, commandId: int, num: int)

  // ---------------------------------------------------------------------------------------------
  // The groups in ascending order
  // ---------------------------------------------------------------------------------------------

  ghost predicate Ascending(s: seq<int>)
  {
    forall i, j :: 0 <= i < j < |s| ==> s[i] < s[j]
  }

  /** The live groups, each once, in ascending order. */
  ghost predicate GidsOf(gids: seq<int>, groups: Groups)
  {
    Ascending(gids) && forall g :: g in gids <==> g in groups
  }

  /** There is only one such list, whatever order a map is gone through. */
  lemma {:induction false} AscendingUnique(a: seq<int>, b: seq<int>)
    requires Ascending(a) && Ascending(b) && forall g :: g in a <==> g in b
    ensures a == b
  {
    if |a| == 0 {
      if |b| > 0 { FirstIn(b); }
    } else if |b| == 0 {
      FirstIn(a);
    } else {
      var x, y := a[|a| - 1], b[|b| - 1];
      LastIn(a);
      LastIn(b);
      LargestLast(a, y);
      LargestLast(b, x);
      var a', b' := a[..|a| - 1], b[..|b| - 1];
      forall g
        ensures g in a' <==> g in b'
      {
        assert g in a' <==> g in a && g != x;
        assert g in b' <==> g in b && g != x;
      }
      AscendingUnique(a', b');
      assert a == a' + [x] && b == b' + [x];
    }
  }

  lemma FirstIn(s: seq<int>)
    requires |s| > 0
    ensures s[0] in s
  {
  }

  lemma LargestLast(s: seq<int>, g: int)
    requires Ascending(s) && |s| > 0 && g in s
    ensures g <= s[|s| - 1]
  {
  }

  lemma AscendingDistinct(s: seq<int>)
    requires Ascending(s)
    ensures Distinct(s)
  {
  }

  method SortedGids(groups: Groups) returns (gids: seq<int>)
    ensures GidsOf(gids, groups)
  {
    gids := [];
    var left := groups.Keys;
    while left != {}
      invariant left <= groups.Keys && Ascending(gids) && forall g :: g in gids <==> g in groups && g !in left
      decreases |left|
    {
      ghost var some := Pick(left);
      var g: int :| g in left;
      gids := InsertGid(gids, g);
      left := left - {g};
    }
  }

  lemma Pick<T>(s: set<T>) returns (x: T)
    requires s != {}
    ensures x in s
  {
    x :| x in s;
  }

  method InsertGid(gids: seq<int>, g: int) returns (longer: seq<int>)
    requires Ascending(gids) && g !in gids
    ensures Ascending(longer) && forall x :: x in longer <==> x == g || x in gids
  {
    var i := |gids|;
    while i > 0 && gids[i - 1] > g
      invariant 0 <= i <= |gids| && forall j :: i <= j < |gids| ==> gids[j] > g
    {
      i := i - 1;
    }
    assert i > 0 ==> gids[i - 1] in gids;
    longer := gids[..i] + [g] + gids[i..];
  }

  // ---------------------------------------------------------------------------------------------
  // rebalance
  // ---------------------------------------------------------------------------------------------

  /** The first group with fewest shards and the first with most. */
  method GetMinMaxGid(gids: seq<int>, held: map<int, seq<int>>) returns (minGid: int, maxGid: int)
    requires |gids| > 0 && forall g :: g in gids ==> g in held
    ensures minGid == MinGid(gids, held, |gids|) && maxGid == MaxGid(gids, held, |gids|)
    ensures minGid in gids && maxGid in gids
    ensures exists i :: 0 <= i < |gids| && gids[i] == minGid && FirstLeast(gids, held, |gids|, i)
    ensures exists i :: 0 <= i < |gids| && gids[i] == maxGid && FirstMost(gids, held, |gids|, i)
  {
    minGid, maxGid := gids[0], gids[0];
    for k := 1 to |gids|
      invariant minGid == MinGid(gids, held, k) && maxGid == MaxGid(gids, held, k)
      invariant minGid in gids && maxGid in gids
    {
      var gid := gids[k];
      assert gid in gids;
      if |held[gid]| < |held[minGid]| { minGid := gid; }
      if |held[gid]| > |held[maxGid]| { maxGid := gid; }
    }
    var least := MinIsFirst(gids, held, |gids|);
    var most := MaxIsFirst(gids, held, |gids|);
  }

  /** The shards of each live group, and those that no live group has. */
  method TakeStock(shards: array<int>, groups: Groups, gids: seq<int>) returns (held: map<int, seq<int>>, unassigned: seq<int>)
    requires GidsOf(gids, groups)
    ensures held == Inventory(shards[..], gids, shards.Length) && unassigned == Unassigned(shards[..], gids, shards.Length)
  {
    held := map g | g in gids :: [];
    unassigned := [];
    for i := 0 to shards.Length
      invariant held == Inventory(shards[..], gids, i) && unassigned == Unassigned(shards[..], gids, i)
    {
      var gid := shards[i];
      if gid in groups {
        assert gid in gids;
        held := held[gid := held[gid] + [i]];
      } else {
        unassigned := unassigned + [i];
      }
    }
  }

  /** Each unassigned shard to whoever has fewest. */
  method PlaceUnassigned(shards: array<int>, gids: seq<int>, held0: map<int, seq<int>>, unassigned: seq<int>, ghost before: seq<int>)
    returns (held: map<int, seq<int>>)
    requires Placing(before, gids, Board(shards[..], held0), unassigned)
    modifies shards
    ensures Placing(before, gids, Board(shards[..], held), [])
    ensures Board(shards[..], held) == old(Place(gids, Board(shards[..], held0), unassigned))
  {
    hide MinGid, MaxGid;
    held := held0;
    ghost var start := Board(shards[..], held0);
    assert unassigned[0..] == unassigned;
    for k := 0 to |unassigned|
      invariant Placing(before, gids, Board(shards[..], held), unassigned[k..])
      invariant Place(gids, Board(shards[..], held), unassigned[k..]) == Place(gids, start, unassigned)
    {
      ghost var board, u := Board(shards[..], held), unassigned[k..];
      assert u[1..] == unassigned[k + 1..] && u[0] == unassigned[k];
      PlaceOne(before, gids, board, u);
      hide Placing;
      var minGid, _ := GetMinMaxGid(gids, held);
      held := held[minGid := held[minGid] + [unassigned[k]]];
      shards[unassigned[k]] := minGid;
      assert Board(shards[..], held) == Give(board, u[0], minGid);
    }
  }

  /** From who has most to who has fewest, until they are within one of each other. */
  method LevelOut(shards: array<int>, gids: seq<int>, held0: map<int, seq<int>>, ghost before: seq<int>)
    requires Levelling(before, gids, Board(shards[..], held0))
    modifies shards
    ensures shards[..] == old(Level(gids, Board(shards[..], held0)).shards)
  {
    var held := held0;
    ghost var start := Board(shards[..], held0);
    while true
      invariant Levelling(before, gids, Board(shards[..], held))
      invariant Level(gids, Board(shards[..], held)) == Level(gids, start)
      decreases Weight(gids, shards[..])
    {
      var minGid, maxGid := GetMinMaxGid(gids, held);
      if |held[maxGid]| <= |held[minGid]| + 1 { break; }
      ghost var board := Board(shards[..], held);
      StepDrops(gids, board);
      LevelOne(before, gids, board);
      var shardToMove := held[maxGid][0];
      held := held[maxGid := held[maxGid][1..]];
      held := held[minGid := held[minGid] + [shardToMove]];
      shards[shardToMove] := minGid;
      assert Board(shards[..], held) == MoveFirst(board, maxGid, minGid);
    }
  }

  /** Reassigns in place. */
  method RebalanceShards(shards: array<int>, groups: Groups, ghost ascending: seq<int>)
    requires GidsOf(ascending, groups) && Distinct(ascending)
    modifies shards
    ensures shards[..] == RebalanceOf(old(shards[..]), ascending)
  {
    var gids := SortedGids(groups);
    AscendingUnique(gids, ascending);
    if |gids| == 0 {
      for i := 0 to shards.Length
        invariant forall j :: 0 <= j < i ==> shards[j] == 0
      {
        shards[i] := 0;
      }
      assert shards[..] == seq(shards.Length, _ => 0);
      return;
    }
    ghost var before := shards[..];
    var held, unassigned := TakeStock(shards, groups, gids);
    StartPlacing(before, gids);
    PlacedOk(before, gids);
    held := PlaceUnassigned(shards, gids, held, unassigned, before);
    LevelOut(shards, gids, held, before);
  }

  // ---------------------------------------------------------------------------------------------
  // The state machine
  // ---------------------------------------------------------------------------------------------

  /** All configurations so far, and for each client the last command that made one. */
  datatype Master = Master(configs: seq<Config>, lastApplied: map<int, int>)

  function Initial(n: nat): Master
  {
    Master([Config(0, seq(n, _ => 0), map[])], map[])
  }

  function Latest(m: Master): Config
    requires |m.configs| > 0
  {
    m.configs[|m.configs| - 1]
  }

  predicate Duplicate(m: Master, op: Op)
  {
    op.clientId in m.lastApplied && op.commandId <= m.lastApplied[op.clientId]
  }

  predicate MakesConfig(m: Master, op: Op)
  {
    !Duplicate(m, op) && !op.Query?
  }

  function NewGroups(groups: Groups, op: Op): Groups
  {
    match op
    case Join(_, _, servers) => groups + servers
    case Leave(_, _, gids) => groups - set g | g in gids
    case _ => groups
  }

  ghost function Gids(groups: Groups): (gids: seq<int>)
    ensures GidsOf(gids, groups) && Distinct(gids)
  {
    var gids := SortedKeys(groups.Keys);
    AscendingDistinct(gids);
    gids
  }

  ghost function SortedKeys(keys: set<int>): (gids: seq<int>)
    ensures Ascending(gids) && forall g :: g in gids <==> g in keys
  {
    if keys == {} then [] else
    var g := Largest(keys);
    SortedKeys(keys - {g}) + [g]
  }

  ghost function Largest(keys: set<int>): (g: int)
    requires keys != {}
    ensures g in keys && forall h :: h in keys ==> h <= g
  {
    LargestExists(keys);
    var g :| g in keys && forall h :: h in keys ==> h <= g;
    g
  }

  lemma {:induction false} LargestExists(keys: set<int>)
    requires keys != {}
    ensures exists g :: g in keys && forall h :: h in keys ==> h <= g
  {
    var x := Pick(keys);
    if keys == {x} {
      assert forall h :: h in keys ==> h <= x;
    } else {
      LargestExists(keys - {x});
      var y :| y in keys - {x} && forall h :: h in keys - {x} ==> h <= y;
      var z := if y < x then x else y;
      assert forall h :: h in keys ==> h == x || h in keys - {x};
      assert z in keys && forall h :: h in keys ==> h <= z;
    }
  }

  ghost function NewShards(config: Config, op: Op): seq<int>
    requires ValidOp(|config.shards|, op)
  {
    match op
    case Move(_, _, shard, gid) => config.shards[shard := gid]
    case _ => RebalanceOf(config.shards, Gids(NewGroups(config.groups, op)))
  }

  /** A move names a shard that there is. */
  predicate ValidOp(n: nat, op: Op)
  {
    op.Move? ==> op.shard < n
  }

  ghost function NextConfig(config: Config, op: Op): Config
    requires ValidOp(|config.shards|, op)
  {
    Config(config.num + 1, NewShards(config, op), NewGroups(config.groups, op))
  }

  ghost function Apply(m: Master, op: Op): Master
    requires |m.configs| > 0 && ValidOp(|Latest(m).shards|, op)
  {
    if MakesConfig(m, op) then
      Master(m.configs + [NextConfig(Latest(m), op)], m.lastApplied[op.clientId := op.commandId])
    else m
  }

  // ---------------------------------------------------------------------------------------------
  // The chain of configurations
  // ---------------------------------------------------------------------------------------------

  predicate ConfigAt(m: Master, n: nat, k: int)
  {
    0 <= k < |m.configs| ==> m.configs[k].num == k && |m.configs[k].shards| == n
  }

  /** Numbered from 0 without gaps, each over n shards, starting with nothing assigned. */
  ghost predicate Chain(m: Master, n: nat)
  {
    |m.configs| > 0 && m.configs[0] == Initial(n).configs[0] && forall k :: ConfigAt(m, n, k)
  }

  lemma NewShardsLength(config: Config, op: Op)
    requires ValidOp(|config.shards|, op)
    ensures |NewShards(config, op)| == |config.shards|
  {
    if !op.Move? {
      var gids := Gids(NewGroups(config.groups, op));
      if |gids| > 0 { RebalanceGreedy(config.shards, gids); }
    }
  }

  /** Applying an operation appends at most one configuration and changes none. */
  lemma ApplyKeepsChain(m: Master, n: nat, op: Op)
    requires Chain(m, n) && ValidOp(n, op)
    ensures ValidOp(|Latest(m).shards|, op) && Chain(Apply(m, op), n)
    ensures m.configs <= Apply(m, op).configs
  {
    hide NewShards, NewGroups;
    assert ConfigAt(m, n, |m.configs| - 1);
    NewShardsLength(Latest(m), op);
    var m' := Apply(m, op);
    forall k ensures ConfigAt(m', n, k) { assert ConfigAt(m, n, k); }
  }

  ghost predicate ValidLog(n: nat, log: seq<Op>)
  {
    forall k :: 0 <= k < |log| ==> ValidOp(n, log[k])
  }

  /** The state after a log. */
  ghost function StateAfter(n: nat, log: seq<Op>): (m: Master)
    requires ValidLog(n, log)
    ensures Chain(m, n)
  {
    if |log| == 0 then Initial(n) else
    var m := StateAfter(n, log[..|log| - 1]);
    ApplyKeepsChain(m, n, log[|log| - 1]);
    Apply(m, log[|log| - 1])
  }

  /** The operations of a log that made a configuration. */
  ghost function Effective(n: nat, log: seq<Op>): seq<Op>
    requires ValidLog(n, log)
  {
    if |log| == 0 then [] else
    Effective(n, log[..|log| - 1]) +
    if MakesConfig(StateAfter(n, log[..|log| - 1]), log[|log| - 1]) then [log[|log| - 1]] else []
  }

  /** Configuration k + 1 is made from configuration k by the k-th effective operation. */
  ghost predicate MadeBy(m: Master, n: nat, ops: seq<Op>, k: int)
  {
    0 <= k < |ops| ==>
      && k + 1 < |m.configs| && ValidOp(|m.configs[k].shards|, ops[k]) && !ops[k].Query?
      && m.configs[k + 1] == NextConfig(m.configs[k], ops[k])
  }

  lemma {:induction false} OneConfigEach(n: nat, log: seq<Op>)
    requires ValidLog(n, log)
    ensures |StateAfter(n, log).configs| == |Effective(n, log)| + 1
    ensures forall k :: MadeBy(StateAfter(n, log), n, Effective(n, log), k)
  {
    if |log| > 0 {
      var before, op := log[..|log| - 1], log[|log| - 1];
      OneConfigEach(n, before);
      var m, ops := StateAfter(n, before), Effective(n, before);
      ApplyKeepsChain(m, n, op);
      hide NextConfig;
      if MakesConfig(m, op) {
        assert Effective(n, log) == ops + [op];
        MadeByMore(m, n, ops, op);
      } else {
        assert Effective(n, log) == ops + [] == ops;
      }
    }
  }

  lemma MadeByMore(m: Master, n: nat, ops: seq<Op>, op: Op)
    requires |m.configs| == |ops| + 1 && ValidOp(|Latest(m).shards|, op) && MakesConfig(m, op)
    requires forall k :: MadeBy(m, n, ops, k)
    ensures forall k :: MadeBy(Apply(m, op), n, ops + [op], k)
  {
    hide NextConfig;
    forall k
      ensures MadeBy(Apply(m, op), n, ops + [op], k)
    {
      assert MadeBy(m, n, ops, k);
    }
  }

  /** Each client's commands take effect in increasing order, so none takes effect twice. */
  ghost predicate Increasing(ops: seq<Op>)
  {
    forall j, k :: 0 <= j < k < |ops| && ops[j].clientId == ops[k].clientId ==> ops[j].commandId < ops[k].commandId
  }

  ghost predicate AllRemembered(m: Master, ops: seq<Op>)
  {
    forall k :: 0 <= k < |ops| ==> RememberedAt(m, ops[k])
  }

  lemma {:induction false} AtMostOnce(n: nat, log: seq<Op>)
    requires ValidLog(n, log)
    ensures Increasing(Effective(n, log)) && AllRemembered(StateAfter(n, log), Effective(n, log))
  {
    hide NextConfig, Increasing, AllRemembered;
    if |log| == 0 {
      NothingYet(StateAfter(n, log));
    } else {
      var before, op := log[..|log| - 1], log[|log| - 1];
      AtMostOnce(n, before);
      var m, ops := StateAfter(n, before), Effective(n, before);
      ApplyKeepsChain(m, n, op);
      if MakesConfig(m, op) {
        assert Effective(n, log) == ops + [op];
        OneMoreRemembered(m, ops, op);
      } else {
        assert Effective(n, log) == ops + [] == ops;
      }
    }
  }

  lemma NothingYet(m: Master)
    ensures Increasing([]) && AllRemembered(m, [])
  {
  }

  lemma OneMoreRemembered(m: Master, ops: seq<Op>, op: Op)
    requires |m.configs| > 0 && ValidOp(|Latest(m).shards|, op) && MakesConfig(m, op)
    requires Increasing(ops) && AllRemembered(m, ops)
    ensures Increasing(ops + [op]) && AllRemembered(Apply(m, op), ops + [op])
  {
    hide NextConfig;
    forall k | 0 <= k < |ops|
      ensures ops[k].clientId == op.clientId ==> ops[k].commandId < op.commandId
      ensures RememberedAt(Apply(m, op), ops[k])
    {
      assert RememberedAt(m, ops[k]);
    }
  }

  predicate RememberedAt(m: Master, op: Op)
  {
    op.clientId in m.lastApplied && op.commandId <= m.lastApplied[op.clientId]
  }

  /** A configuration made by a Join or Leave has all shards on live groups, evenly, and takes the fewest possible
      from groups that stay; without groups, no shard is assigned. */
  lemma JoinLeaveConfigs(n: nat, log: seq<Op>, k: nat, other: seq<int>)
    requires ValidLog(n, log) && k < |Effective(n, log)| && !Effective(n, log)[k].Move?
    requires |other| == n
    ensures k + 1 < |StateAfter(n, log).configs|
    ensures var before, after := StateAfter(n, log).configs[k], StateAfter(n, log).configs[k + 1];
            var gids := Gids(after.groups);
            && |before.shards| == |after.shards| == n
            && (after.groups == map[] ==> after.shards == seq(n, _ => 0))
            && (after.groups != map[] ==> Balanced(after.shards, gids))
            && (after.groups != map[] && Balanced(other, gids) ==>
                  Taken(before.shards, after.shards, gids) <= Taken(before.shards, other, gids))
  {
    OneConfigEach(n, log);
    var m, op := StateAfter(n, log), Effective(n, log)[k];
    assert MadeBy(m, n, Effective(n, log), k) && ConfigAt(m, n, k) && ConfigAt(m, n, k + 1);
    var gids := Gids(m.configs[k + 1].groups);
    if |gids| == 0 {
      NoKeys(m.configs[k + 1].groups, gids);
    } else {
      SomeKeys(m.configs[k + 1].groups, gids);
      RebalanceGreedy(m.configs[k].shards, gids);
      if Balanced(other, gids) { RebalanceOptimal(m.configs[k].shards, gids, other); }
    }
  }

  /** All shards are on live groups, and evenly, unless there are no groups. */
  ghost predicate Even(config: Config)
  {
    config.groups != map[] ==> Balanced(config.shards, Gids(config.groups))
  }

  /** Only a Move makes a configuration that is not even. */
  lemma EvenUnlessMoved(n: nat, log: seq<Op>, k: nat)
    requires ValidLog(n, log) && k <= |Effective(n, log)| && (k > 0 ==> !Effective(n, log)[k - 1].Move?)
    ensures k < |StateAfter(n, log).configs| && Even(StateAfter(n, log).configs[k])
  {
    OneConfigEach(n, log);
    if k > 0 { JoinLeaveConfigs(n, log, k - 1, seq(n, _ => 0)); }
  }

  /** Configuration k is even, because no Move made it or although one did. */
  ghost predicate EvenBefore(n: nat, log: seq<Op>, k: nat)
    requires ValidLog(n, log) && k < |Effective(n, log)|
  {
    k > 0 && Effective(n, log)[k - 1].Move? && k < |StateAfter(n, log).configs| ==> Even(StateAfter(n, log).configs[k])
  }

  /** The two configurations around a Join or Leave, for a group of the earlier one. */
  lemma AroundChange(n: nat, log: seq<Op>, k: nat)
    requires ValidLog(n, log) && k < |Effective(n, log)| && !Effective(n, log)[k].Move? && EvenBefore(n, log, k)
    ensures k + 1 < |StateAfter(n, log).configs|
    ensures var before, after, op := StateAfter(n, log).configs[k], StateAfter(n, log).configs[k + 1], Effective(n, log)[k];
            && after.groups == NewGroups(before.groups, op) && Even(before) && !op.Query?
            && (after.groups != map[] ==> var gids := Gids(after.groups);
                  Greedy(before.shards, after.shards, gids) && Balanced(after.shards, gids))
  {
    OneConfigEach(n, log);
    var m, op := StateAfter(n, log), Effective(n, log)[k];
    assert MadeBy(m, n, Effective(n, log), k);
    if !(k > 0 && Effective(n, log)[k - 1].Move?) { EvenUnlessMoved(n, log, k); }
    var gids := Gids(m.configs[k + 1].groups);
    if |gids| == 0 { NoKeys(m.configs[k + 1].groups, gids); } else { RebalanceGreedy(m.configs[k].shards, gids); }
  }

  /** A Join to an even configuration gives the groups that were there nothing new. */
  lemma JoinGivesNothingToOld(n: nat, log: seq<Op>, k: nat, g: int)
    requires ValidLog(n, log) && k < |Effective(n, log)| && Effective(n, log)[k].Join? && EvenBefore(n, log, k)
    ensures k + 1 < |StateAfter(n, log).configs|
    ensures var before, after := StateAfter(n, log).configs[k], StateAfter(n, log).configs[k + 1];
            g in before.groups ==> GetsNothing(before.shards, after.shards, g)
  {
    hide NextConfig, Even;
    AroundChange(n, log, k);
    var before, after := StateAfter(n, log).configs[k], StateAfter(n, log).configs[k + 1];
    if g in before.groups {
      assert g in after.groups;
      EvenMeans(before);
      JoinGivesOldNothing(before.shards, after.shards, Gids(after.groups), Gids(before.groups), g);
    }
  }

  /** A Leave from an even configuration takes no shard from a group that stays. */
  lemma LeaveTakesNothingFromStaying(n: nat, log: seq<Op>, k: nat, g: int)
    requires ValidLog(n, log) && k < |Effective(n, log)| && Effective(n, log)[k].Leave? && EvenBefore(n, log, k)
    ensures k + 1 < |StateAfter(n, log).configs|
    ensures var before, after := StateAfter(n, log).configs[k], StateAfter(n, log).configs[k + 1];
            g in after.groups ==> KeepsAll(before.shards, after.shards, g)
  {
    hide NextConfig, Even;
    AroundChange(n, log, k);
    var before, after := StateAfter(n, log).configs[k], StateAfter(n, log).configs[k + 1];
    if g in after.groups {
      assert g in before.groups;
      EvenMeans(before);
      LeaveMovesNoSurvivor(before.shards, after.shards, Gids(after.groups), Gids(before.groups), g);
    }
  }

  lemma EvenMeans(config: Config)
    requires Even(config) && config.groups != map[]
    ensures Balanced(config.shards, Gids(config.groups))
  {
  }

  lemma NoKeys(groups: Groups, gids: seq<int>)
    requires GidsOf(gids, groups) && |gids| == 0
    ensures groups == map[]
  {
    assert forall g :: g !in groups;
  }

  lemma SomeKeys(groups: Groups, gids: seq<int>)
    requires GidsOf(gids, groups) && |gids| > 0
    ensures groups != map[]
  {
    FirstIn(gids);
  }

  // ---------------------------------------------------------------------------------------------
  // The server
  // ---------------------------------------------------------------------------------------------

  class Server {
    const shardCount: nat
    var configs: seq<Config>
    var lastApplied: map<int, int>

    ghost function View(): Master
      reads this
    {
      Master(configs, lastApplied)
    }

    constructor (n: nat)
      ensures shardCount == n && View() == Initial(n)
    {
      shardCount := n;
      configs := [Config(0, seq(n, _ => 0), map[])];
      lastApplied := map[];
    }

    /** One turn of the applier. */
    method ApplyOp(op: Op)
      requires Chain(View(), shardCount) && ValidOp(shardCount, op)
      modifies this
      ensures Chain(View(), shardCount) && ValidOp(|Latest(old(View())).shards|, op) && View() == Apply(old(View()), op)
    {
      hide NextConfig;
      ApplyKeepsChain(View(), shardCount, op);
      var isDuplicate := false;
      if op.clientId in lastApplied && op.commandId <= lastApplied[op.clientId] {
        isDuplicate := true;
      }
      if !isDuplicate && !op.Query? {
        var newConfig := MakeConfig(configs[|configs| - 1], op);
        configs := configs + [newConfig];
        lastApplied := lastApplied[op.clientId := op.commandId];
      }
    }

    /** The configuration with that number; the latest for -1 and for numbers not reached yet. */
    method Lookup(num: int) returns (config: Config)
      requires Chain(View(), shardCount) && num >= -1
      ensures 0 <= num < |View().configs| ==> config == View().configs[num] && config.num == num
      ensures num == -1 || num >= |View().configs| ==> config == Latest(View()) && config.num == |View().configs| - 1
    {
      assert ConfigAt(View(), shardCount, num) && ConfigAt(View(), shardCount, |configs| - 1);
      if num == -1 || num >= |configs| {
        config := configs[|configs| - 1];
      } else {
        config := configs[num];
      }
    }
  }

  /** A fresh copy of the last configuration, changed as the operation says. */
  method MakeConfig(last: Config, op: Op) returns (config: Config)
    requires ValidOp(|last.shards|, op) && !op.Query?
    ensures config == NextConfig(last, op)
  {
    var shards := new int[|last.shards|](i requires 0 <= i < |last.shards| => last.shards[i]);
    var groups := last.groups;
    assert shards[..] == last.shards;
    match op {
      case Join(_, _, servers) =>
        groups := groups + servers;
        RebalanceShards(shards, groups, Gids(groups));
      case Leave(_, _, gids) =>
        groups := RemoveAll(groups, gids);
        RebalanceShards(shards, groups, Gids(groups));
      case Move(_, _, shard, gid) =>
        shards[shard] := gid;
    }
    config := Config(last.num + 1, shards[..], groups);
  }

  /** The groups without those that leave. */
  method RemoveAll(groups: Groups, gids: seq<int>) returns (r: Groups)
    ensures r == groups - set g | g in gids
  {
    r := groups;
    for i := 0 to |gids|
      invariant r == groups - set g | g in gids[..i]
    {
      assert gids[..i + 1] == gids[..i] + [gids[i]];
      r := r - {gids[i]};
    }
    assert gids[..|gids|] == gids;
  }
}
