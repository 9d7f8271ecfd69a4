/** The replicated key-value service: writes are applied once although clients send them again and again, and a
    snapshot stands for the log that it replaces. */
module KvRaft {
  import W = Writes

  datatype Kind = Get | Put | Append

  /** `commiter` is the client, `pos` the number of its write. */
  datatype Op = Op(kind: Kind, key: string, value: string, pos: int, commiter: int)

  /** The store, and for each client the last write applied. */
  datatype State = State(kvstore: map<string, string>, committed: map<int, int>)

  const EMPTY: State := State(map[], map[])

  /** A client without an entry counts as 0. */
  function Committed(s: State, c: int): int
  {
    if c in s.committed then s.committed[c] else 0
  }

  predicate IsWrite(op: Op)
  {
    op.kind != Get
  }

  /** The store after a write. */
  function Written(kvstore: map<string, string>, op: Op): map<string, string>
  {
    match op.kind
    case Get => kvstore
    case Put => kvstore[op.key := op.value]
    case Append => kvstore[op.key := (if op.key in kvstore then kvstore[op.key] else "") + op.value]
  }

  function ApplyOp(s: State, op: Op): State
  {
    if IsWrite(op) && op.pos > Committed(s, op.commiter) then
      State(Written(s.kvstore, op), s.committed[op.commiter := op.pos])
    else s
  }

  function ApplyAll(s: State, ops: seq<Op>): State
  {
    if |ops| == 0 then s else ApplyOp(ApplyAll(s, ops[..|ops| - 1]), ops[|ops| - 1])
  }

  /** The state after the first n entries of the log. */
  function StateAt(log: seq<Op>, n: nat): State
    requires n <= |log|
  {
    ApplyAll(EMPTY, log[..n])
  }

  /** Restoring a snapshot taken anywhere and applying the rest is replaying everything. */
  lemma {:induction false} SnapshotReplay(log: seq<Op>, n: nat, m: nat)
    requires n <= m <= |log|
    ensures ApplyAll(StateAt(log, n), log[n..m]) == StateAt(log, m)
    decreases m
  {
    if n < m {
      SnapshotReplay(log, n, m - 1);
      assert log[n..m][..m - n - 1] == log[n..m - 1] && log[..m][..m - 1] == log[..m - 1];
    }
  }

  // ---------------------------------------------------------------------------------------------
  // Exactly once
  // ---------------------------------------------------------------------------------------------

  /** Write p of client c is in the log. */
  ghost predicate Logged(log: seq<Op>, c: int, p: int)
  {
    exists j :: 0 <= j < |log| && IsThe(log[j], c, p)
  }

  predicate IsThe(op: Op, c: int, p: int)
  {
    IsWrite(op) && op.commiter == c && op.pos == p
  }

  /** The entry is a write that has not been in the log before. */
  ghost predicate IsFirst(log: seq<Op>, op: Op)
  {
    IsWrite(op) && !Logged(log, op.commiter, op.pos)
  }

  /** The first occurrences of the writes, in order. */
  ghost function FirstOnes(log: seq<Op>): seq<Op>
  {
    if |log| == 0 then [] else
    FirstOnes(log[..|log| - 1]) + if IsFirst(log[..|log| - 1], log[|log| - 1]) then [log[|log| - 1]] else []
  }

  /** The store that a sequence of writes builds from nothing. */
  function Fold(ops: seq<Op>): map<string, string>
  {
    if |ops| == 0 then map[] else Written(Fold(ops[..|ops| - 1]), ops[|ops| - 1])
  }

  /** Writes are numbered from 1, and each comes only after the one before it is in the log. */
  ghost predicate Orderly(log: seq<Op>)
  {
    forall j :: 0 <= j < |log| && IsWrite(log[j]) ==> Follows(log[..j], log[j])
  }

  ghost predicate Follows(log: seq<Op>, op: Op)
  {
    op.pos >= 1 && (op.pos > 1 ==> Logged(log, op.commiter, op.pos - 1))
  }

  lemma LoggedLonger(log: seq<Op>, op: Op, c: int, p: int)
    ensures Logged(log + [op], c, p) <==> Logged(log, c, p) || IsThe(op, c, p)
  {
    var longer := log + [op];
    if Logged(log, c, p) {
      var j :| 0 <= j < |log| && IsThe(log[j], c, p);
      assert IsThe(longer[j], c, p);
    }
    if IsThe(op, c, p) { assert IsThe(longer[|log|], c, p); }
  }

  /** The writes of client c in the log are exactly 1 to the last one applied. */
  ghost predicate TableExact(log: seq<Op>, s: State, c: int)
  {
    Committed(s, c) >= 0 && forall p :: Logged(log, c, p) <==> 1 <= p <= Committed(s, c)
  }

  lemma OrderlyShorter(log: seq<Op>)
    requires Orderly(log) && |log| > 0
    ensures Orderly(log[..|log| - 1])
    ensures IsWrite(log[|log| - 1]) ==> Follows(log[..|log| - 1], log[|log| - 1])
  {
    var shorter := log[..|log| - 1];
    forall j | 0 <= j < |shorter| && IsWrite(shorter[j])
      ensures Follows(shorter[..j], shorter[j])
    {
      assert shorter[..j] == log[..j];
      assert Follows(log[..j], log[j]);
    }
  }

  /** In an orderly log the store is the fold of the first occurrence of each write, and the table says for each
      client how many there are. */
  lemma {:induction false} ExactlyOnce(log: seq<Op>)
    requires Orderly(log)
    ensures StateAt(log, |log|).kvstore == Fold(FirstOnes(log))
    ensures forall c :: TableExact(log, StateAt(log, |log|), c)
  {
    assert log[..|log|] == log;
    if |log| > 0 {
      var before, op := log[..|log| - 1], log[|log| - 1];
      var s := StateAt(before, |before|);
      assert before[..|before|] == before && log == before + [op];
      OrderlyShorter(log);
      ExactlyOnce(before);
      assert TableExact(before, s, op.commiter);
      if IsFirst(before, op) {
        assert FirstOnes(log)[..|FirstOnes(log)| - 1] == FirstOnes(before);
      } else {
        assert FirstOnes(log) == FirstOnes(before) + [] == FirstOnes(before);
      }
      forall c
        ensures TableExact(log, ApplyOp(s, op), c)
      {
        assert TableExact(before, s, c);
        forall p
          ensures Logged(log, c, p) <==> 1 <= p <= Committed(ApplyOp(s, op), c)
        {
          LoggedLonger(before, op, c, p);
        }
      }
    }
  }

  /** No write is among the first occurrences twice. */
  lemma {:induction false} FirstOnesDistinct(log: seq<Op>, j: nat, k: nat)
    requires j < k < |FirstOnes(log)|
    ensures FirstOnes(log)[j].commiter == FirstOnes(log)[k].commiter ==> FirstOnes(log)[j].pos != FirstOnes(log)[k].pos
  {
    var before, op := log[..|log| - 1], log[|log| - 1];
    if k < |FirstOnes(before)| {
      FirstOnesDistinct(before, j, k);
    } else {
      FirstOnesLogged(before, j);
    }
  }

  lemma {:induction false} FirstOnesLogged(log: seq<Op>, j: nat)
    requires j < |FirstOnes(log)|
    ensures IsWrite(FirstOnes(log)[j]) && Logged(log, FirstOnes(log)[j].commiter, FirstOnes(log)[j].pos)
  {
    var before, op := log[..|log| - 1], log[|log| - 1];
    assert log == before + [op];
    var first := FirstOnes(log)[j];
    LoggedLonger(before, op, first.commiter, first.pos);
    if j < |FirstOnes(before)| { FirstOnesLogged(before, j); }
  }

  /** Every write in the log is among the first occurrences. */
  lemma {:induction false} LoggedIsFirst(log: seq<Op>, c: int, p: int) returns (k: nat)
    requires Logged(log, c, p)
    ensures k < |FirstOnes(log)| && IsThe(FirstOnes(log)[k], c, p)
  {
    var before, op := log[..|log| - 1], log[|log| - 1];
    assert log == before + [op];
    LoggedLonger(before, op, c, p);
    if Logged(before, c, p) {
      k := LoggedIsFirst(before, c, p);
    } else {
      assert IsFirst(before, op);
      k := |FirstOnes(before)|;
    }
  }

  /** Write p of client c has exactly one place in a sequence of writes. */
  ghost predicate OnceAmong(ops: seq<Op>, c: int, p: int)
  {
    exists k :: 0 <= k < |ops| && IsThe(ops[k], c, p) && forall j :: 0 <= j < |ops| && IsThe(ops[j], c, p) ==> j == k
  }

  /** A write is in the log if and only if the store is built from it, and then from it once. */
  lemma AppliedOnce(log: seq<Op>, c: int, p: int)
    ensures Logged(log, c, p) <==> OnceAmong(FirstOnes(log), c, p)
  {
    var ops := FirstOnes(log);
    if Logged(log, c, p) {
      var k := LoggedIsFirst(log, c, p);
      forall j | 0 <= j < |ops| && IsThe(ops[j], c, p)
        ensures j == k
      {
        if j < k { FirstOnesDistinct(log, j, k); }
        if k < j { FirstOnesDistinct(log, k, j); }
      }
    }
    if OnceAmong(ops, c, p) {
      var k :| 0 <= k < |ops| && IsThe(ops[k], c, p);
      FirstOnesLogged(log, k);
    }
  }

  // ---------------------------------------------------------------------------------------------
  // What the store holds
  // ---------------------------------------------------------------------------------------------

  function AccessOf(op: Op): W.Access
  {
    match op.kind
    case Get => W.Read(op.key)
    case Put => W.Put(op.key, op.value)
    case Append => W.Append(op.key, op.value)
  }

  function AccessesOf(ops: seq<Op>): seq<W.Access>
  {
    seq(|ops|, i requires 0 <= i < |ops| => AccessOf(ops[i]))
  }

  /** A write that is new does to the store what a put or an append is for, and the table remembers it; a repeated write
      and a read do nothing. */
  lemma OperationMeans(s: State, op: Op)
    ensures var s' := ApplyOp(s, op);
            if op.kind != Get && op.pos > Committed(s, op.commiter) then
              && W.Changes(s.kvstore, AccessOf(op), s'.kvstore)
              && forall c :: Committed(s', c) == if c == op.commiter then op.pos else Committed(s, c)
            else s' == s
  {
  }

  lemma {:induction false} FoldHolds(ops: seq<Op>)
    ensures W.StoreOf(Fold(ops), AccessesOf(ops))
  {
    if |ops| > 0 {
      var shorter, last := ops[..|ops| - 1], ops[|ops| - 1];
      FoldHolds(shorter);
      W.StoreMore(Fold(shorter), AccessesOf(shorter), AccessOf(last), Fold(ops));
      assert AccessesOf(ops) == AccessesOf(shorter) + [AccessOf(last)];
    } else {
      assert AccessesOf(ops) == [];
    }
  }

  /** In an orderly log each key has the value of the last put on it that was new, followed by what later new appends on
      it added. */
  lemma StoreHolds(log: seq<Op>)
    requires Orderly(log)
    ensures W.StoreOf(StateAt(log, |log|).kvstore, AccessesOf(FirstOnes(log)))
  {
    ExactlyOnce(log);
    FoldHolds(FirstOnes(log));
  }

  /** Entries with the same client and number are the same write. */
  ghost predicate NumbersFixed(log: seq<Op>)
  {
    forall i, j :: 0 <= i < j < |log| ==> SameIfNumbered(log[i], log[j])
  }

  predicate SameIfNumbered(a: Op, b: Op)
  {
    IsWrite(a) && IsWrite(b) && a.commiter == b.commiter && a.pos == b.pos ==> a == b
  }

  lemma {:induction false} FirstOnesIn(log: seq<Op>, k: nat) returns (i: nat)
    requires k < |FirstOnes(log)|
    ensures i < |log| && log[i] == FirstOnes(log)[k]
  {
    var before := log[..|log| - 1];
    if k < |FirstOnes(before)| { i := FirstOnesIn(before, k); } else { i := |log| - 1; }
  }

  /** Then a key is written in the log if and only if it is written by a first occurrence. */
  lemma KeysOfLog(log: seq<Op>, key: string)
    requires NumbersFixed(log)
    ensures W.Written(AccessesOf(FirstOnes(log)), key) <==> W.Written(AccessesOf(log), key)
  {
    var firsts, all := AccessesOf(FirstOnes(log)), AccessesOf(log);
    if W.Written(firsts, key) {
      var k :| 0 <= k < |firsts| && (W.IsPut(firsts[k], key) || W.IsAppend(firsts[k], key));
      var i := FirstOnesIn(log, k);
      assert all[i] == firsts[k];
    }
    if W.Written(all, key) {
      var i :| 0 <= i < |all| && (W.IsPut(all[i], key) || W.IsAppend(all[i], key));
      assert IsThe(log[i], log[i].commiter, log[i].pos);
      var k := LoggedIsFirst(log, log[i].commiter, log[i].pos);
      var i' := FirstOnesIn(log, k);
      assert SameIfNumbered(log[i], log[i']) && SameIfNumbered(log[i'], log[i]);
      assert firsts[k] == all[i];
    }
  }

  // ---------------------------------------------------------------------------------------------
  // Clients
  // ---------------------------------------------------------------------------------------------

  /** The log, and for each client the number of the write it is working on. */
  datatype System = System(log: seq<Op>, next: map<int, int>)

  datatype Event =
    /** Some request of a client, or an old copy of one, enters the log. */
    | Enter(op: Op)
    /** The client learns that its current write is done, from a server that has applied the log up to n. */
    | Acknowledge(c: int, n: nat)

  function Next(sys: System, c: int): int
  {
    if c in sys.next then sys.next[c] else 1
  }

  /** A write enters with the client's current number or an earlier one, and then it is the write that this number was
      given to; a read enters with number 0. OK is answered when
      the duplicate table has the number already, or when the entry applied at the index has the request's client and
      number. */
  ghost predicate Enabled(sys: System, e: Event)
  {
    match e
    case Enter(op) =>
      if IsWrite(op) then
        1 <= op.pos <= Next(sys, op.commiter) && forall j :: 0 <= j < |sys.log| ==> SameIfNumbered(sys.log[j], op)
      else op.pos == 0
    case Acknowledge(c, n) =>
      n <= |sys.log| &&
      (Next(sys, c) <= Committed(StateAt(sys.log, n), c) || (n > 0 && sys.log[n - 1].commiter == c && sys.log[n - 1].pos == Next(sys, c)))
  }

  function After(sys: System, e: Event): System
  {
    match e
    case Enter(op) => sys.(log := sys.log + [op])
    case Acknowledge(c, _) => sys.(next := sys.next[c := Next(sys, c) + 1])
  }

  ghost predicate AllDone(sys: System, c: int)
  {
    Next(sys, c) >= 1 && forall p :: 1 <= p < Next(sys, c) ==> Logged(sys.log, c, p)
  }

  ghost predicate Sound(sys: System)
  {
    Orderly(sys.log) && NumbersFixed(sys.log) && (forall c :: AllDone(sys, c)) && forall j :: 0 <= j < |sys.log| ==> IsWrite(sys.log[j]) || sys.log[j].pos == 0
  }

  function SystemAfter(run: seq<Event>): System
  {
    if |run| == 0 then System([], map[]) else After(SystemAfter(run[..|run| - 1]), run[|run| - 1])
  }

  ghost predicate IsRun(run: seq<Event>)
  {
    |run| == 0 || (IsRun(run[..|run| - 1]) && Enabled(SystemAfter(run[..|run| - 1]), run[|run| - 1]))
  }

  lemma EnterKeeps(sys: System, op: Op)
    requires Sound(sys) && Enabled(sys, Enter(op))
    ensures Sound(After(sys, Enter(op)))
  {
    var sys' := After(sys, Enter(op));
    forall j | 0 <= j < |sys'.log| && IsWrite(sys'.log[j])
      ensures Follows(sys'.log[..j], sys'.log[j])
    {
      assert AllDone(sys, op.commiter);
      assert sys'.log[..j] == sys.log[..j];
      assert sys.log[..|sys.log|] == sys.log;
    }
    forall c
      ensures AllDone(sys', c)
    {
      assert AllDone(sys, c);
      forall p | 1 <= p < Next(sys', c)
        ensures Logged(sys'.log, c, p)
      {
        LoggedLonger(sys.log, op, c, p);
      }
    }
  }

  lemma PrefixOrderly(log: seq<Op>, n: nat)
    requires Orderly(log) && n <= |log|
    ensures Orderly(log[..n])
  {
    forall j | 0 <= j < n && IsWrite(log[..n][j])
      ensures Follows(log[..n][..j], log[..n][j])
    {
      assert log[..n][..j] == log[..j];
      assert Follows(log[..j], log[j]);
    }
  }

  /** OK means that the write is in the log. */
  lemma AcknowledgedIsLogged(sys: System, c: int, n: nat)
    requires Sound(sys) && Enabled(sys, Acknowledge(c, n))
    ensures Logged(sys.log, c, Next(sys, c)) && Logged(sys.log[..n], c, Next(sys, c))
  {
    var prefix := sys.log[..n];
    assert AllDone(sys, c);
    if Next(sys, c) <= Committed(StateAt(sys.log, n), c) {
      PrefixOrderly(sys.log, n);
      ExactlyOnce(prefix);
      assert prefix[..|prefix|] == prefix;
      assert TableExact(prefix, StateAt(sys.log, n), c);
    } else {
      assert IsThe(prefix[n - 1], c, Next(sys, c));
    }
    assert Logged(prefix, c, Next(sys, c));
    var j :| 0 <= j < n && IsThe(prefix[j], c, Next(sys, c));
    assert IsThe(sys.log[j], c, Next(sys, c));
  }

  lemma AcknowledgeKeeps(sys: System, c: int, n: nat)
    requires Sound(sys) && Enabled(sys, Acknowledge(c, n))
    ensures Sound(After(sys, Acknowledge(c, n)))
  {
    AcknowledgedIsLogged(sys, c, n);
    var sys' := After(sys, Acknowledge(c, n));
    forall d ensures AllDone(sys', d) { assert AllDone(sys, d); }
  }

  /** Whatever requests are lost, repeated or late, the clients' retry loop makes the log orderly. */
  lemma {:induction false} RetryLoopIsOrderly(run: seq<Event>)
    requires IsRun(run)
    ensures Sound(SystemAfter(run))
  {
    if |run| > 0 {
      var before := SystemAfter(run[..|run| - 1]);
      RetryLoopIsOrderly(run[..|run| - 1]);
      match run[|run| - 1]
      case Enter(op) => EnterKeeps(before, op);
      case Acknowledge(c, n) => AcknowledgeKeeps(before, c, n);
    }
  }

  lemma KeysWritten(log: seq<Op>)
    requires Orderly(log) && NumbersFixed(log)
    ensures W.StoreOf(StateAt(log, |log|).kvstore, AccessesOf(FirstOnes(log)))
    ensures forall key :: key in StateAt(log, |log|).kvstore <==> W.Written(AccessesOf(log), key)
  {
    StoreHolds(log);
    forall key
      ensures key in StateAt(log, |log|).kvstore <==> W.Written(AccessesOf(log), key)
    {
      assert W.KeyOf(StateAt(log, |log|).kvstore, AccessesOf(FirstOnes(log)), key);
      KeysOfLog(log, key);
    }
  }

  /** In every run, a server that has applied the whole log has applied each write once: the store is the fold of the
      first occurrences, in which every write that was acknowledged has exactly one place. Each key has the value of the
      last put on it, followed by what later appends added, and the keys are those that some write in the log names. */
  lemma ServiceExactlyOnce(run: seq<Event>, c: int, p: int)
    requires IsRun(run)
    ensures var sys := SystemAfter(run);
            && StateAt(sys.log, |sys.log|).kvstore == Fold(FirstOnes(sys.log))
            && W.StoreOf(StateAt(sys.log, |sys.log|).kvstore, AccessesOf(FirstOnes(sys.log)))
            && (forall key :: key in StateAt(sys.log, |sys.log|).kvstore <==> W.Written(AccessesOf(sys.log), key))
            && (OnceAmong(FirstOnes(sys.log), c, p) <==> 1 <= p <= Committed(StateAt(sys.log, |sys.log|), c))
            && (1 <= p < Next(sys, c) ==> OnceAmong(FirstOnes(sys.log), c, p))
  {
    var sys := SystemAfter(run);
    RetryLoopIsOrderly(run);
    AppliedOnce(sys.log, c, p);
    KeysWritten(sys.log);
    ExactlyOnce(sys.log);
    assert AllDone(sys, c) && TableExact(sys.log, StateAt(sys.log, |sys.log|), c);
  }

  // ---------------------------------------------------------------------------------------------
  // The server
  // ---------------------------------------------------------------------------------------------

  datatype Option<+T> = None | Some(value: T)

  datatype Msg = CommandMsg(index: nat, op: Op) | SnapshotMsg(index: nat, snapshot: State)

  /** What one message does to the state. */
  function Handle(s: State, msg: Msg): State
  {
    match msg
    case CommandMsg(index, op) => if index != 0 then ApplyOp(s, op) else s
    case SnapshotMsg(_, snapshot) => snapshot
  }

  function HandleAll(s: State, msgs: seq<Msg>): State
  {
    if |msgs| == 0 then s else Handle(HandleAll(s, msgs[..|msgs| - 1]), msgs[|msgs| - 1])
  }

  /** The snapshot that the i-th turn makes, if any. */
  function MadeAt(s: State, msgs: seq<Msg>, tooLong: seq<bool>, i: int): Option<State>
    requires 0 <= i < |msgs| == |tooLong|
  {
    if msgs[i].CommandMsg? && msgs[i].index != 0 && tooLong[i] then Some(HandleAll(s, msgs[..i + 1])) else None
  }

  /** The message is the entry right after the position, or a snapshot of the log at some index. */
  ghost predicate Expected(log: seq<Op>, position: nat, msg: Msg)
  {
    match msg
    case CommandMsg(index, op) => index == position + 1 <= |log| && op == log[position]
    case SnapshotMsg(index, snapshot) => index <= |log| && snapshot == StateAt(log, index)
  }

  function PositionAfter(position: nat, msgs: seq<Msg>): nat
  {
    if |msgs| == 0 then position else msgs[|msgs| - 1].index
  }

  ghost predicate InOrder(log: seq<Op>, position: nat, msgs: seq<Msg>)
  {
    forall i :: 0 <= i < |msgs| ==> Expected(log, PositionAfter(position, msgs[..i]), msgs[i])
  }

  /** As long as every command is the one after the position, the state is that of the log, through whatever snapshots. */
  lemma {:induction false} StreamFollowsLog(log: seq<Op>, position: nat, msgs: seq<Msg>)
    requires position <= |log| && InOrder(log, position, msgs)
    ensures PositionAfter(position, msgs) <= |log|
    ensures HandleAll(StateAt(log, position), msgs) == StateAt(log, PositionAfter(position, msgs))
  {
    if |msgs| > 0 {
      var before, msg := msgs[..|msgs| - 1], msgs[|msgs| - 1];
      forall i | 0 <= i < |before|
        ensures Expected(log, PositionAfter(position, before[..i]), before[i])
      {
        assert before[..i] == msgs[..i];
      }
      StreamFollowsLog(log, position, before);
      assert Expected(log, PositionAfter(position, before), msg);
      if msg.CommandMsg? { assert log[..msg.index][..msg.index - 1] == log[..msg.index - 1]; }
    }
  }

  /** The commands of the log from n to m. */
  function Tail(log: seq<Op>, n: nat, m: nat): seq<Msg>
    requires n <= m <= |log|
  {
    seq(m - n, i requires 0 <= i < m - n => CommandMsg(n + i + 1, log[n + i]))
  }

  lemma {:induction false} TailApplied(s: State, log: seq<Op>, n: nat, m: nat)
    requires n <= m <= |log|
    ensures HandleAll(s, Tail(log, n, m)) == ApplyAll(s, log[n..m])
    decreases m
  {
    if n < m {
      TailApplied(s, log, n, m - 1);
      assert Tail(log, n, m)[..m - n - 1] == Tail(log, n, m - 1);
      assert log[n..m][..m - n - 1] == log[n..m - 1];
    }
  }

  class KVServer {
    var kvstore: map<string, string>
    var committed: map<int, int>

    ghost function View(): State
      reads this
    {
      State(kvstore, committed)
    }

    /** A server starts from the snapshot that was saved, if any. */
    constructor (saved: Option<State>)
      ensures View() == if saved.Some? then saved.value else EMPTY
    {
      kvstore, committed := map[], map[];
      new;
      if saved.Some? { ReadSnapshot(saved.value); }
    }

    /** One turn of the apply loop, for any message. When the log has grown too long, a command is followed by a
        snapshot of the state. */
    method Apply(msg: Msg, tooLong: bool) returns (snapshot: Option<State>)
      modifies this
      ensures View() == Handle(old(View()), msg)
      ensures snapshot == if msg.CommandMsg? && msg.index != 0 && tooLong then Some(View()) else None
    {
      snapshot := None;
      match msg
      case CommandMsg(index, op) =>
        if index != 0 {
          var last := if op.commiter in committed then committed[op.commiter] else 0;
          if op.kind == Put && op.pos > last {
            kvstore := kvstore[op.key := op.value];
            committed := committed[op.commiter := op.pos];
          } else if op.kind == Append && op.pos > last {
            kvstore := kvstore[op.key := (if op.key in kvstore then kvstore[op.key] else "") + op.value];
            committed := committed[op.commiter := op.pos];
          }
          if tooLong {
            var made := MakeSnapshot();
            snapshot := Some(made);
          }
        }
      case SnapshotMsg(index, data) =>
        ReadSnapshot(data);
    }

    /** The loop over the messages that come in, whenever the log has grown too long: the snapshots that it makes are
        the states right after their commands. */
    method ApplyLoop(msgs: seq<Msg>, tooLong: seq<bool>) returns (made: seq<Option<State>>)
      requires |tooLong| == |msgs|
      modifies this
      ensures View() == HandleAll(old(View()), msgs)
      ensures |made| == |msgs| && forall i :: 0 <= i < |made| ==> made[i] == MadeAt(old(View()), msgs, tooLong, i)
    {
      made := [];
      for i := 0 to |msgs|
        invariant View() == HandleAll(old(View()), msgs[..i])
        invariant |made| == i && forall j :: 0 <= j < i ==> made[j] == MadeAt(old(View()), msgs, tooLong, j)
      {
        assert msgs[..i + 1][..i] == msgs[..i];
        var snapshot := Apply(msgs[i], tooLong[i]);
        made := made + [snapshot];
      }
      assert msgs[..|msgs|] == msgs;
    }

    method MakeSnapshot() returns (snapshot: State)
      ensures snapshot == View()
    {
      snapshot := State(kvstore, committed);
    }

    method ReadSnapshot(snapshot: State)
      modifies this
      ensures View() == snapshot
    {
      kvstore, committed := snapshot.kvstore, snapshot.committed;
    }

    /** The check before a write is proposed. */
    method AlreadyDone(commiter: int, pos: int) returns (done: bool)
      ensures done <==> pos <= Committed(View(), commiter)
    {
      var last := if commiter in committed then committed[commiter] else 0;
      done := pos <= last;
    }
  }

  /** A server that starts from the snapshot another made at index n, and then takes the rest of the log up to m, has
      the store and the duplicate table of one that applied everything: that of the log at m. */
  method Recover(kv: KVServer, ghost log: seq<Op>, ghost n: nat, ghost m: nat, tail: seq<Msg>, tooLong: seq<bool>) returns (recovered: KVServer)
    requires n <= m <= |log| && kv.View() == StateAt(log, n) && tail == Tail(log, n, m) && |tooLong| == |tail|
    ensures fresh(recovered) && recovered.View() == StateAt(log, m) == HandleAll(EMPTY, Tail(log, 0, m))
  {
    var snapshot := kv.MakeSnapshot();
    recovered := new KVServer(Some(snapshot));
    var _ := recovered.ApplyLoop(tail, tooLong);
    TailApplied(snapshot, log, n, m);
    SnapshotReplay(log, n, m);
    TailApplied(EMPTY, log, 0, m);
    assert log[0..m] == log[..m];
  }
}
