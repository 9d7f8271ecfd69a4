/** A server of the sharded store: its fields, updated in place as log entries are applied, and the guards of its
    tickers and of FetchShard. */
module ShardServer {
  import opened ShardHandlers

  /** What the migration and garbage-collection tickers have to do for one shard. */
  datatype Task = Task(shardId: nat, configNum: nat, oldGid: int)

  /** What the log hands to the service: an entry, or a snapshot of the state at an index. */
  datatype Msg = CommandMsg(index: nat, op: Op) | SnapshotMsg(index: nat, snapshot: Group)

  // ---------------------------------------------------------------------------------------------
  // The log
  // ---------------------------------------------------------------------------------------------

  predicate ValidLog(log: seq<Op>)
  {
    forall k :: 0 <= k < |log| ==> ValidOp(log[k])
  }

  /** The state after the first n entries of the log. */
  function StateAt(gid: int, log: seq<Op>, n: nat): (g: Group)
    requires ValidLog(log) && n <= |log|
    ensures ValidGroup(g)
  {
    if n == 0 then Initial() else Apply(gid, StateAt(gid, log, n - 1), log[n - 1])
  }

  /** A message about this log: the entry at its index, which comes next or has come before, or the state there. */
  ghost predicate Faithful(gid: int, log: seq<Op>, lastApplied: nat, msg: Msg)
    requires ValidLog(log)
  {
    match msg
    case CommandMsg(index, op) => 0 < index <= |log| && log[index - 1] == op && index <= lastApplied + 1
    case SnapshotMsg(index, snapshot) => index <= |log| && snapshot == StateAt(gid, log, index)
  }

  /** The tasks for the shards below n that have the given status. */
  function TasksBelow(g: Group, status: Status, n: nat): seq<Task>
    requires ValidGroup(g) && n <= N_SHARDS
  {
    if n == 0 then [] else
    TasksBelow(g, status, n - 1) +
    if g.shards[n - 1].status == status then [Task(n - 1, g.config.num, g.lastConfig.shards[n - 1])] else []
  }

  /** A task for each shard with the status, once, and for no other. */
  lemma {:induction false} TasksExact(g: Group, status: Status, n: nat)
    requires ValidGroup(g) && n <= N_SHARDS
    ensures forall t :: t in TasksBelow(g, status, n) <==>
                        t.shardId < n && g.shards[t.shardId].status == status && t == Task(t.shardId, g.config.num, g.lastConfig.shards[t.shardId])
    ensures forall j, k :: 0 <= j < k < |TasksBelow(g, status, n)| ==>
                             TasksBelow(g, status, n)[j].shardId < TasksBelow(g, status, n)[k].shardId
  {
    if n > 0 {
      TasksExact(g, status, n - 1);
      var before := TasksBelow(g, status, n - 1);
      forall j | 0 <= j < |before|
        ensures before[j].shardId < n - 1
      {
        assert before[j] in before;
      }
    }
  }

  class ShardKV {
    const gid: int
    var config: Config
    var lastConfig: Config
    const shards: array<Shard>
    var lastApplied: nat

    ghost predicate Valid()
      reads this, shards
    {
      shards.Length == N_SHARDS && ValidConfig(config) && ValidConfig(lastConfig)
    }

    ghost function View(): (g: Group)
      reads this, shards
      requires Valid()
      ensures ValidGroup(g)
    {
      Group(config, lastConfig, shards[..])
    }

    constructor (gid: int)
      ensures Valid() && fresh(shards) && this.gid == gid && View() == Initial() && lastApplied == 0
    {
      this.gid := gid;
      config, lastConfig := EmptyConfig(), EmptyConfig();
      shards := new Shard[N_SHARDS](_ => Shard(EMPTY, Invalid));
      lastApplied := 0;
    }

    method ApplyClientOperation(op: Op)
      requires Valid() && op.ClientOp?
      modifies shards
      ensures Valid() && View() == Apply(gid, old(View()), op)
    {
      var shardId := Key2Shard(op.key);
      var sh := shards[shardId];
      if sh.status != Serving && sh.status != GCing {
        assert shards[..] == old(shards[..])[shardId := sh];
        return;
      }
      var isDuplicate := false;
      if op.clientId in sh.data.clientSeq && op.commandId <= sh.data.clientSeq[op.clientId] {
        isDuplicate := true;
      }
      if !isDuplicate {
        var store, clientSeq := sh.data.store, sh.data.clientSeq;
        if op.kind == Put {
          store := store[op.key := op.value];
        } else if op.kind == Append {
          store := store[op.key := (if op.key in store then store[op.key] else "") + op.value];
        }
        clientSeq := clientSeq[op.clientId := op.commandId];
        sh := Shard(Data(store, clientSeq), sh.status);
        shards[shardId] := sh;
      }
      assert shards[..] == old(shards[..])[shardId := sh];
    }

    method ApplyConfiguration(op: Op)
      requires Valid() && op.UpdateConfig? && ValidOp(op)
      modifies this`config, this`lastConfig, shards
      ensures Valid() && View() == Apply(gid, old(View()), op)
    {
      var newConfig := op.config;
      if newConfig.num != config.num + 1 { return; }
      for i := 0 to N_SHARDS
        invariant Valid() && config == old(config) && lastConfig == old(lastConfig)
        invariant forall j :: 0 <= j < i ==> shards[j] == ConfigShard(gid, config.shards[j], newConfig.shards[j], old(shards[j]))
        invariant forall j :: i <= j < N_SHARDS ==> shards[j] == old(shards[j])
      {
        var oldGid, newGid := config.shards[i], newConfig.shards[i];
        if newGid == gid && oldGid != gid {
          if oldGid == 0 {
            shards[i] := shards[i].(status := Serving);
          } else {
            shards[i] := shards[i].(status := Pulling);
          }
        }
        if oldGid == gid && newGid != gid {
          if newGid != 0 {
            shards[i] := shards[i].(status := Pushing);
          }
        }
      }
      lastConfig := config;
      config := newConfig;
      assert View().shards == Apply(gid, old(View()), op).shards;
    }

    method ApplyInsertShard(op: Op)
      requires Valid() && op.InsertShard? && ValidOp(op)
      modifies shards
      ensures Valid() && View() == Apply(gid, old(View()), op)
    {
      if op.configNum != config.num { return; }
      var sh := shards[op.shardId];
      if sh.status != Pulling { return; }
      var store := CopyStore(sh.data.store, op.data.store);
      var clientSeq := CopySeq(sh.data.clientSeq, op.data.clientSeq);
      shards[op.shardId] := Shard(Data(store, clientSeq), GCing);
      assert shards[..] == old(shards[..])[op.shardId := InsertInto(sh, op.data)];
    }

    method ApplyDeleteShard(op: Op)
      requires Valid() && op.DeleteShard? && ValidOp(op)
      modifies shards
      ensures Valid() && View() == Apply(gid, old(View()), op)
    {
      if op.configNum != config.num { return; }
      if shards[op.shardId].status == Pushing {
        shards[op.shardId] := Shard(EMPTY, Invalid);
        assert shards[..] == old(shards[..])[op.shardId := Shard(EMPTY, Invalid)];
      }
    }

    method ApplyGCComplete(op: Op)
      requires Valid() && op.GCComplete? && ValidOp(op)
      modifies shards
      ensures Valid() && View() == Apply(gid, old(View()), op)
    {
      if op.configNum != config.num { return; }
      if shards[op.shardId].status == GCing {
        shards[op.shardId] := shards[op.shardId].(status := Serving);
        assert shards[..] == old(shards[..])[op.shardId := old(shards[op.shardId]).(status := Serving)];
      }
    }

    /** One turn of the applier. The server's state is always that of the log up to lastApplied, and lastApplied
        never goes back: old entries and old snapshots are passed over. */
    method HandleMsg(msg: Msg, ghost log: seq<Op>)
      requires Valid() && ValidLog(log) && lastApplied <= |log| && View() == StateAt(gid, log, lastApplied)
      requires Faithful(gid, log, lastApplied, msg)
      modifies this, shards
      ensures Valid() && lastApplied == (if msg.index > old(lastApplied) then msg.index else old(lastApplied))
      ensures lastApplied <= |log| && View() == StateAt(gid, log, lastApplied)
    {
      match msg
      case CommandMsg(index, op) =>
        if index <= lastApplied { return; }
        match op {
          case ClientOp(_, _, _, _, _) => ApplyClientOperation(op);
          case UpdateConfig(_) => ApplyConfiguration(op);
          case InsertShard(_, _, _) => ApplyInsertShard(op);
          case DeleteShard(_, _) => ApplyDeleteShard(op);
          case GCComplete(_, _) => ApplyGCComplete(op);
        }
        lastApplied := index;
      case SnapshotMsg(index, snapshot) =>
        if index > lastApplied {
          ReadSnapshot(snapshot);
          lastApplied := index;
        }
    }

    /** Replaces everything at once. */
    method ReadSnapshot(snapshot: Group)
      requires Valid() && ValidGroup(snapshot)
      modifies this`config, this`lastConfig, shards
      ensures Valid() && View() == snapshot
    {
      config, lastConfig := snapshot.config, snapshot.lastConfig;
      for i := 0 to N_SHARDS
        invariant Valid() && config == snapshot.config && lastConfig == snapshot.lastConfig
        invariant forall j :: 0 <= j < i ==> shards[j] == snapshot.shards[j]
      {
        shards[i] := snapshot.shards[i];
      }
      assert shards[..] == snapshot.shards;
    }

    /** Refuses while this group has not come to the asked configuration. */
    method FetchShard(shardId: nat, configNum: nat) returns (reply: Reply)
      requires Valid() && shardId < N_SHARDS
      ensures reply == FetchReply(View(), shardId, configNum)
      ensures reply == if View().config.num < configNum then ErrNotReady else OK(View().shards[shardId].data)
    {
      if config.num < configNum { return ErrNotReady; }
      var store := CopyStore(map[], shards[shardId].data.store);
      var clientSeq := CopySeq(map[], shards[shardId].data.clientSeq);
      assert MergeStore(map[], shards[shardId].data.store) == shards[shardId].data.store;
      assert MergeSeq(map[], shards[shardId].data.clientSeq) == shards[shardId].data.clientSeq;
      return OK(Data(store, clientSeq));
    }

    /** The guard of the configuration ticker. */
    method IsReconfiguring() returns (r: bool)
      requires Valid()
      ensures r <==> !Stable(View())
    {
      for i := 0 to N_SHARDS
        invariant forall j :: 0 <= j < i ==> Settled(shards[j])
      {
        if shards[i].status == Pulling || shards[i].status == Pushing || shards[i].status == GCing {
          assert !Settled(View().shards[i]);
          return true;
        }
      }
      return false;
    }

    /** What the migration ticker (for Pulling) or the garbage-collection ticker (for GCing) collects. */
    method Tasks(status: Status) returns (tasks: seq<Task>)
      requires Valid()
      ensures tasks == TasksBelow(View(), status, N_SHARDS)
    {
      tasks := [];
      for i := 0 to N_SHARDS
        invariant tasks == TasksBelow(View(), status, i)
      {
        if shards[i].status == status {
          tasks := tasks + [Task(i, config.num, lastConfig.shards[i])];
        }
      }
    }
  }

  lemma Pick<T>(s: set<T>) returns (x: T)
    requires s != {}
    ensures x in s
  {
    x :| x in s;
  }

  /** Key k has been copied, if it is in `from` and not left to do; other keys are as they were. */
  predicate StoreCopiedAt(r: map<string, string>, into: map<string, string>, from: map<string, string>, left: set<string>, k: string)
  {
    if k in from && k !in left then k in r && r[k] == from[k]
    else (k in r <==> k in into) && (k in into ==> r[k] == into[k])
  }

  /** Every entry of the second store replaces or joins the first, in any order of the keys. */
  method CopyStore(into: map<string, string>, from: map<string, string>) returns (r: map<string, string>)
    ensures r == MergeStore(into, from)
  {
    r := into;
    var left := from.Keys;
    while left != {}
      invariant left <= from.Keys && forall k :: StoreCopiedAt(r, into, from, left, k)
      decreases |left|
    {
      var k :| k in left;
      ghost var r0, left0 := r, left;
      r := r[k := from[k]];
      left := left - {k};
      forall k' ensures StoreCopiedAt(r, into, from, left, k') { assert StoreCopiedAt(r0, into, from, left0, k'); }
    }
    forall k
      ensures k in r <==> k in MergeStore(into, from)
      ensures k in r ==> r[k] == MergeStore(into, from)[k]
    {
      assert StoreCopiedAt(r, into, from, left, k);
    }
  }

  predicate SeqCopiedAt(r: map<int, int>, into: map<int, int>, from: map<int, int>, left: set<int>, c: int)
  {
    if c in from && c !in left then c in r && r[c] == MergeSeq(into, from)[c]
    else (c in r <==> c in into) && (c in into ==> r[c] == into[c])
  }

  /** For each client the larger number, in any order of the clients. */
  method CopySeq(into: map<int, int>, from: map<int, int>) returns (r: map<int, int>)
    ensures r == MergeSeq(into, from)
  {
    r := into;
    var left := from.Keys;
    while left != {}
      invariant left <= from.Keys && forall c :: SeqCopiedAt(r, into, from, left, c)
      decreases |left|
    {
      ghost var some := Pick(left);
      var c: int :| c in left;
      ghost var r0, left0 := r, left;
      assert SeqCopiedAt(r, into, from, left, c);
      if c !in r || from[c] > r[c] {
        r := r[c := from[c]];
      }
      left := left - {c};
      forall c' ensures SeqCopiedAt(r, into, from, left, c') { assert SeqCopiedAt(r0, into, from, left0, c'); }
    }
    forall c
      ensures c in r <==> c in MergeSeq(into, from)
      ensures c in r ==> r[c] == MergeSeq(into, from)[c]
    {
      assert SeqCopiedAt(r, into, from, left, c);
    }
  }
}
