/** One replica group of the sharded store as a state machine: its shards, its configurations, and what each kind
    of log entry does to them. */
module ShardHandlers {

  const N_SHARDS: nat := 10

  /** `shards[i]` is the group that shard i is assigned to; 0 is no group. */
  datatype Config = Config(num: nat, shards: seq<int>)

  datatype Status = Invalid | Serving | Pulling | Pushing | GCing

  /** The contents of a shard: its keys, and for each client the last command that took effect. */
  datatype Data = Data(store: map<string, string>, clientSeq: map<int, int>)

  datatype Shard = Shard(data: Data, status: Status)

  datatype Kind = Get | Put | Append

  datatype Op =
    | ClientOp(kind: Kind, key: string, value: string, clientId: int, commandId: int)
    | UpdateConfig(config: Config)
    | InsertShard(shardId: nat, configNum: nat, data: Data)
    | DeleteShard(shardId: nat, configNum: nat)
    | GCComplete(shardId: nat, configNum: nat)

  /** The replicated state of a group. */
  datatype Group = Group(config: Config, lastConfig: Config, shards: seq<Shard>)

  const EMPTY: Data := Data(map[], map[])

  function EmptyConfig(): Config
  {
    Config(0, seq(N_SHARDS, _ => 0))
  }

  function Initial(): Group
  {
    Group(EmptyConfig(), EmptyConfig(), seq(N_SHARDS, _ => Shard(EMPTY, Invalid)))
  }

  predicate ValidConfig(c: Config)
  {
    |c.shards| == N_SHARDS
  }

  predicate ValidGroup(g: Group)
  {
    ValidConfig(g.config) && ValidConfig(g.lastConfig) && |g.shards| == N_SHARDS
  }

  predicate ValidOp(op: Op)
  {
    match op
    case UpdateConfig(c) => ValidConfig(c)
    case InsertShard(i, _, _) => i < N_SHARDS
    case DeleteShard(i, _) => i < N_SHARDS
    case GCComplete(i, _) => i < N_SHARDS
    case ClientOp(_, _, _, _, _) => true
  }

  /** By the first byte of the key. */
  function Key2Shard(key: string): (i: nat)
    ensures i < N_SHARDS
  {
    if |key| > 0 then key[0] as int % N_SHARDS else 0
  }

  // ---------------------------------------------------------------------------------------------
  // Client operations
  // ---------------------------------------------------------------------------------------------

  predicate Duplicate(d: Data, op: Op)
    requires op.ClientOp?
  {
    op.clientId in d.clientSeq && op.commandId <= d.clientSeq[op.clientId]
  }

  /** What an operation does when it takes effect. */
  function Perform(d: Data, op: Op): Data
    requires op.ClientOp?
  {
    var store := match op.kind
                 case Get => d.store
                 case Put => d.store[op.key := op.value]
                 case Append => d.store[op.key := (if op.key in d.store then d.store[op.key] else "") + op.value];
    Data(store, d.clientSeq[op.clientId := op.commandId])
  }

  predicate Serves(sh: Shard)
  {
    sh.status == Serving || sh.status == GCing
  }

  predicate TakesEffect(sh: Shard, op: Op)
    requires op.ClientOp?
  {
    Serves(sh) && !Duplicate(sh.data, op)
  }

  function ClientShard(sh: Shard, op: Op): Shard
    requires op.ClientOp?
  {
    if TakesEffect(sh, op) then sh.(data := Perform(sh.data, op)) else sh
  }

  /** The data that a sequence of effective operations builds from nothing. */
  function Fold(ops: seq<Op>): Data
    requires forall k :: 0 <= k < |ops| ==> ops[k].ClientOp?
  {
    if |ops| == 0 then EMPTY else Perform(Fold(ops[..|ops| - 1]), ops[|ops| - 1])
  }

  // ---------------------------------------------------------------------------------------------
  // Shard movement
  // ---------------------------------------------------------------------------------------------

  /** One shard of group gid when its assignment goes from oldGid to newGid. */
  function ConfigShard(gid: int, oldGid: int, newGid: int, sh: Shard): Shard
  {
    if newGid == gid && oldGid != gid then sh.(status := if oldGid == 0 then Serving else Pulling)
    else if oldGid == gid && newGid != gid && newGid != 0 then sh.(status := Pushing)
    else sh
  }

  function MergeStore(a: map<string, string>, b: map<string, string>): map<string, string>
  {
    a + b
  }

  /** The larger command number wins. */
  function MergeSeq(a: map<int, int>, b: map<int, int>): map<int, int>
  {
    map c | c in a.Keys + b.Keys ::
      if c !in b then a[c] else if c !in a then b[c] else if b[c] > a[c] then b[c] else a[c]
  }

  function InsertInto(sh: Shard, data: Data): Shard
  {
    Shard(Data(MergeStore(sh.data.store, data.store), MergeSeq(sh.data.clientSeq, data.clientSeq)), GCing)
  }

  // ---------------------------------------------------------------------------------------------
  // Applying a log entry
  // ---------------------------------------------------------------------------------------------

  function Apply(gid: int, g: Group, op: Op): Group
    requires ValidGroup(g) && ValidOp(op)
  {
    match op
    case ClientOp(_, key, _, _, _) =>
      var i := Key2Shard(key);
      g.(shards := g.shards[i := ClientShard(g.shards[i], op)])
    case UpdateConfig(c) =>
      if c.num != g.config.num + 1 then g else
      Group(c, g.config,
            seq(N_SHARDS, i requires 0 <= i < N_SHARDS => ConfigShard(gid, g.config.shards[i], c.shards[i], g.shards[i])))
    case InsertShard(i, n, data) =>
      if n != g.config.num || g.shards[i].status != Pulling then g else
      g.(shards := g.shards[i := InsertInto(g.shards[i], data)])
    case DeleteShard(i, n) =>
      if n != g.config.num || g.shards[i].status != Pushing then g else
      g.(shards := g.shards[i := Shard(EMPTY, Invalid)])
    case GCComplete(i, n) =>
      if n != g.config.num || g.shards[i].status != GCing then g else
      g.(shards := g.shards[i := g.shards[i].(status := Serving)])
  }

  /** The guard of the configuration ticker: nothing is on the move. */
  predicate Settled(sh: Shard)
  {
    sh.status == Invalid || sh.status == Serving
  }

  predicate Stable(g: Group)
  {
    forall i :: 0 <= i < |g.shards| ==> Settled(g.shards[i])
  }

  /** What FetchShard answers. */
  datatype Reply = ErrNotReady | OK(data: Data)

  /** The old group refuses until it has come to the configuration that takes the shard away from it. */
  function FetchReply(g: Group, shardId: nat, configNum: nat): Reply
    requires ValidGroup(g) && shardId < N_SHARDS
  {
    if g.config.num < configNum then ErrNotReady else OK(g.shards[shardId].data)
  }

  // ---------------------------------------------------------------------------------------------
  // Facts about single shards
  // ---------------------------------------------------------------------------------------------

  /** Inserting into an empty shard copies the data. */
  lemma InsertIntoEmpty(sh: Shard, data: Data)
    requires sh.data == EMPTY
    ensures InsertInto(sh, data) == Shard(data, GCing)
  {
    assert MergeSeq(map[], data.clientSeq) == data.clientSeq;
  }

  /** Which commands of a client have taken effect is what the table says. */
  ghost predicate Increasing(ops: seq<Op>)
    requires forall k :: 0 <= k < |ops| ==> ops[k].ClientOp?
  {
    forall j, k :: 0 <= j < k < |ops| && ops[j].clientId == ops[k].clientId ==> ops[j].commandId < ops[k].commandId
  }

  lemma {:induction false} FoldSeq(ops: seq<Op>, k: int)
    requires (forall j :: 0 <= j < |ops| ==> ops[j].ClientOp?) && Increasing(ops) && 0 <= k < |ops|
    ensures ops[k].clientId in Fold(ops).clientSeq && ops[k].commandId <= Fold(ops).clientSeq[ops[k].clientId]
  {
    if k < |ops| - 1 { FoldSeq(ops[..|ops| - 1], k); }
  }

  /** An operation that is no duplicate comes after all earlier ones of its client. */
  lemma StaysIncreasing(ops: seq<Op>, op: Op)
    requires (forall j :: 0 <= j < |ops| ==> ops[j].ClientOp?) && Increasing(ops)
    requires op.ClientOp? && !Duplicate(Fold(ops), op)
    ensures Increasing(ops + [op]) && Fold(ops + [op]) == Perform(Fold(ops), op)
  {
    forall k | 0 <= k < |ops| && ops[k].clientId == op.clientId
      ensures ops[k].commandId < op.commandId
    {
      FoldSeq(ops, k);
    }
    assert (ops + [op])[..|ops|] == ops;
  }
}
