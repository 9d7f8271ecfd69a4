/** What is in a shard, in terms of what clients asked for: the value of a key in every run, when an operation takes
    effect, and what the parts of a move do to a shard. */
module ShardValues {
  import W = Writes
  import opened ShardHandlers
  import opened ShardLane
  import opened ShardSystem
  import opened ShardInvariant
  import opened ShardSteps
  import opened ShardSafety

  function AccessOf(op: Op): W.Access
    requires op.ClientOp?
  {
    match op.kind
    case Get => W.Read(op.key)
    case Put => W.Put(op.key, op.value)
    case Append => W.Append(op.key, op.value)
  }

  function AccessesOf(ops: seq<Op>): seq<W.Access>
    requires forall k :: 0 <= k < |ops| ==> ops[k].ClientOp?
  {
    seq(|ops|, i requires 0 <= i < |ops| => AccessOf(ops[i]))
  }

  /** The shard serves, and the table has no command of the client with this number or a later one. */
  predicate IsNew(sh: Shard, op: Op)
    requires op.ClientOp?
  {
    && (sh.status == Serving || sh.status == GCing)
    && (op.clientId in sh.data.clientSeq ==> op.commandId > sh.data.clientSeq[op.clientId])
  }

  /** A new operation does to the shard of its key what a put, an append or a read is for, and the table remembers it;
      nothing else of the group changes. Any other operation changes nothing. */
  lemma OperationMeans(gid: int, g: Group, op: Op)
    requires ValidGroup(g) && op.ClientOp?
    ensures var g', i := Apply(gid, g, op), Key2Shard(op.key);
            var sh, sh' := g.shards[i], g'.shards[i];
            if IsNew(sh, op) then
              && g'.config == g.config && g'.lastConfig == g.lastConfig && |g'.shards| == N_SHARDS
              && (forall j :: 0 <= j < N_SHARDS && j != i ==> g'.shards[j] == g.shards[j])
              && sh'.status == sh.status && W.Changes(sh.data.store, AccessOf(op), sh'.data.store)
              && (forall c :: c in sh'.data.clientSeq <==> c == op.clientId || c in sh.data.clientSeq)
              && (forall c :: c in sh'.data.clientSeq ==>
                    sh'.data.clientSeq[c] == if c == op.clientId then op.commandId else sh.data.clientSeq[c])
            else g' == g
  {
  }

  /** The keys and client numbers that a fetched copy brings win over what is there, a number only if it is larger; nothing
      is lost. It happens once, in the configuration that the copy was fetched for. */
  lemma InsertMeans(gid: int, g: Group, i: nat, n: nat, data: Data)
    requires ValidGroup(g) && i < N_SHARDS
    ensures var g' := Apply(gid, g, InsertShard(i, n, data));
            var sh, sh' := g.shards[i], g'.shards[i];
            if n == g.config.num && sh.status == Pulling then
              && g'.config == g.config && g'.lastConfig == g.lastConfig && |g'.shards| == N_SHARDS && sh'.status == GCing
              && (forall j :: 0 <= j < N_SHARDS && j != i ==> g'.shards[j] == g.shards[j])
              && (forall key :: key in sh'.data.store <==> key in data.store || key in sh.data.store)
              && (forall key :: key in data.store ==> sh'.data.store[key] == data.store[key])
              && (forall key :: key in sh.data.store && key !in data.store ==> sh'.data.store[key] == sh.data.store[key])
              && (forall c :: c in sh'.data.clientSeq <==> c in data.clientSeq || c in sh.data.clientSeq)
              && (forall c :: c in data.clientSeq ==> sh'.data.clientSeq[c] >= data.clientSeq[c])
              && (forall c :: c in sh.data.clientSeq ==> sh'.data.clientSeq[c] >= sh.data.clientSeq[c])
              && (forall c :: c in sh'.data.clientSeq ==>
                    (c in data.clientSeq && sh'.data.clientSeq[c] == data.clientSeq[c])
                    || (c in sh.data.clientSeq && sh'.data.clientSeq[c] == sh.data.clientSeq[c]))
            else g' == g
  {
  }

  // ---------------------------------------------------------------------------------------------
  // Whole runs
  // ---------------------------------------------------------------------------------------------

  lemma PerformChanges(d: Data, op: Op)
    requires op.ClientOp?
    ensures W.Changes(d.store, AccessOf(op), Perform(d, op).store)
  {
  }

  lemma {:induction false} FoldHolds(ops: seq<Op>)
    requires forall k :: 0 <= k < |ops| ==> ops[k].ClientOp?
    ensures W.StoreOf(Fold(ops).store, AccessesOf(ops))
  {
    if |ops| > 0 {
      var shorter, last := ops[..|ops| - 1], ops[|ops| - 1];
      FoldHolds(shorter);
      PerformChanges(Fold(shorter), last);
      W.StoreMore(Fold(shorter).store, AccessesOf(shorter), AccessOf(last), Fold(ops).store);
      assert AccessesOf(ops) == AccessesOf(shorter) + [AccessOf(last)];
    } else {
      assert AccessesOf(ops) == [];
    }
  }

  /** In every run each key of a served shard has the value of the last put on it that took effect, on whatever group,
      followed by what later effective appends on it added; and no other key is there. */
  lemma ServedValues(chain: seq<Config>, gids: set<int>, run: seq<Event>, i: nat, g: int)
    requires IsChain(chain, gids) && CleanChain(chain, gids) && IsRun(chain, gids, run) && i < N_SHARDS && g in gids
    requires var status := StateAfter(chain, gids, run).now[g].shards[i].status; status == Serving || status == GCing
    ensures W.StoreOf(StateAfter(chain, gids, run).now[g].shards[i].data.store, AccessesOf(Effects(chain, gids, run, i)))
  {
    ServedCopyIsComplete(chain, gids, run, i, g);
    FoldHolds(Effects(chain, gids, run, i));
  }

  /** A command of the client with this number or a later one is among the operations. */
  ghost predicate Seen(ops: seq<Op>, op: Op)
    requires op.ClientOp? && forall k :: 0 <= k < |ops| ==> ops[k].ClientOp?
  {
    exists k :: 0 <= k < |ops| && ops[k].clientId == op.clientId && ops[k].commandId >= op.commandId
  }

  lemma SeenMore(ops: seq<Op>, last: Op, op: Op)
    requires op.ClientOp? && last.ClientOp? && forall k :: 0 <= k < |ops| ==> ops[k].ClientOp?
    ensures Seen(ops + [last], op) <==> Seen(ops, op) || (last.clientId == op.clientId && last.commandId >= op.commandId)
  {
    var longer := ops + [last];
    if Seen(ops, op) {
      var k :| 0 <= k < |ops| && ops[k].clientId == op.clientId && ops[k].commandId >= op.commandId;
      assert longer[k] == ops[k];
    }
    assert longer[|ops|] == last;
  }

  /** The table knows exactly what has been seen. */
  lemma {:induction false} DuplicateIsSeen(ops: seq<Op>, op: Op)
    requires op.ClientOp? && (forall k :: 0 <= k < |ops| ==> ops[k].ClientOp?) && Increasing(ops)
    ensures Duplicate(Fold(ops), op) <==> Seen(ops, op)
  {
    if |ops| > 0 {
      var shorter, last := ops[..|ops| - 1], ops[|ops| - 1];
      assert ops == shorter + [last];
      DuplicateIsSeen(shorter, op);
      SeenMore(shorter, last, op);
      if last.clientId == op.clientId && Seen(shorter, op) {
        var k :| 0 <= k < |shorter| && shorter[k].clientId == op.clientId && shorter[k].commandId >= op.commandId;
        assert ops[k].commandId < last.commandId;
      }
    }
  }

  /** An operation that a group applies takes effect exactly when the group serves the shard of its key and no operation
      of the client with its number or a later one has taken effect on the shard, on any group. */
  lemma TakesEffectExactly(chain: seq<Config>, gids: set<int>, run: seq<Event>, g: int, op: Op, i: nat)
    requires IsChain(chain, gids) && CleanChain(chain, gids) && IsRun(chain, gids, run + [Commit(g, op)])
    requires op.ClientOp? && g in gids && i < N_SHARDS
    ensures IsRun(chain, gids, run)
    ensures var group, ops := StateAfter(chain, gids, run).now[g], Effects(chain, gids, run, i);
            var status := group.shards[i].status;
            Effects(chain, gids, run + [Commit(g, op)], i)
            == ops + if Key2Shard(op.key) == i && (status == Serving || status == GCing) && !Seen(ops, op) then [op] else []
  {
    var longer := run + [Commit(g, op)];
    assert longer[..|longer| - 1] == run;
    var sys, ops := StateAfter(chain, gids, run), Effects(chain, gids, run, i);
    var epochs, datas := RunInv(chain, gids, run);
    InvShape(chain, gids, sys, epochs, datas);
    CommandsIncrease(chain, gids, run, i);
    if Serves(sys.now[g].shards[i]) {
      ServedCopyIsComplete(chain, gids, run, i, g);
      DuplicateIsSeen(ops, op);
    }
  }
}
