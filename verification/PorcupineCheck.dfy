/** From a whole history to a verdict: partition by key, sort by time, search every class, and take the
    conjunction; and the replay of what the search recorded. */
module PorcupineCheck {
  import opened PorcupineSearch
  import opened PorcupineHistory
  import opened PorcupineEntries
  import opened PorcupineKv
  import opened PorcupineChecker

  // ---------------------------------------------------------------------------------------------
  // Sorting the keys
  // ---------------------------------------------------------------------------------------------

  predicate Less(a: string, b: string)
  {
    |b| > 0 && (|a| == 0 || a[0] < b[0] || (a[0] == b[0] && Less(a[1..], b[1..])))
  }

  lemma {:induction false} LessTotal(a: string, b: string)
    ensures a == b || Less(a, b) || Less(b, a)
  {
    if |a| > 0 && |b| > 0 && a[0] == b[0] {
      LessTotal(a[1..], b[1..]);
      assert a == [a[0]] + a[1..] && b == [b[0]] + b[1..];
    }
  }

  lemma {:induction false} LessOrders(a: string, b: string, c: string)
    ensures !Less(a, a)
    ensures Less(a, b) && Less(b, c) ==> Less(a, c)
  {
    if |a| > 0 {
      if |b| > 0 && |c| > 0 { LessOrders(a[1..], b[1..], c[1..]); } else { LessOrders(a[1..], [], []); }
    }
  }

  ghost predicate Ascending(keys: seq<string>)
  {
    forall i, j :: 0 <= i < j < |keys| ==> Less(keys[i], keys[j])
  }

  /** Ascending keys are determined by which they are. */
  lemma {:induction false} AscendingUnique(a: seq<string>, b: seq<string>)
    requires Ascending(a) && Ascending(b) && forall k :: k in a <==> k in b
    ensures a == b
  {
    if |a| == 0 {
      if |b| > 0 { FirstIn(b); }
    } else {
      var last := a[|a| - 1];
      assert last in a;
      assert |b| > 0;
      var last' := b[|b| - 1];
      assert last' in b;
      LastIsLargest(a, last');
      LastIsLargest(b, last);
      LessOrders(last, last', last);
      var a', b' := a[..|a| - 1], b[..|b| - 1];
      assert a == a' + [last] && b == b' + [last];
      LastNotBefore(a);
      LastNotBefore(b);
      forall k
        ensures k in a' <==> k in b'
      {
        assert k in a' <==> k in a && k != last;
        assert k in b' <==> k in b && k != last;
      }
      AscendingUnique(a', b');
    }
  }

  lemma FirstIn(b: seq<string>)
    requires |b| > 0
    ensures b[0] in b
  {
  }

  lemma LastIsLargest(a: seq<string>, k: string)
    requires Ascending(a) && |a| > 0 && k in a
    ensures k == a[|a| - 1] || Less(k, a[|a| - 1])
  {
  }

  lemma LastNotBefore(a: seq<string>)
    requires Ascending(a) && |a| > 0
    ensures a[|a| - 1] !in a[..|a| - 1]
  {
    LessOrders(a[|a| - 1], [], []);
  }

  /** Puts one more key where it belongs. */
  method InsertKey(keys: seq<string>, k: string) returns (longer: seq<string>)
    requires Ascending(keys) && k !in keys
    ensures Ascending(longer) && forall x :: x in longer <==> x == k || x in keys
  {
    var i := |keys|;
    while i > 0 && Less(k, keys[i - 1])
      invariant 0 <= i <= |keys|
      invariant forall j :: i <= j < |keys| ==> Less(k, keys[j])
    {
      i := i - 1;
    }
    longer := keys[..i] + [k] + keys[i..];
    if i > 0 { LessTotal(k, keys[i - 1]); }
    forall j | 0 <= j < i
      ensures Less(keys[j], k)
    {
      assert keys[i - 1] in keys;
      LessOrders(keys[j], keys[i - 1], k);
    }
  }

  /** The keys of a map in any order, then sorted. */
  method SortedKeys(m: map<string, seq<KvOp>>) returns (keys: seq<string>)
    ensures Ascending(keys) && forall k :: k in keys <==> k in m
  {
    keys := [];
    var left := m.Keys;
    while left != {}
      invariant left <= m.Keys && Ascending(keys)
      invariant forall k :: k in keys <==> k in m && k !in left
      decreases |left|
    {
      var k :| k in left;
      keys := InsertKey(keys, k);
      left := left - {k};
    }
  }

  // ---------------------------------------------------------------------------------------------
  // Partition
  // ---------------------------------------------------------------------------------------------

  ghost predicate Grouped(m: map<string, seq<KvOp>>, ops: seq<KvOp>)
  {
    && (forall k :: k in m <==> HasKey(ops, k))
    && (forall k :: k in m ==> m[k] == Class(ops, k))
  }

  lemma GroupedMore(m: map<string, seq<KvOp>>, ops: seq<KvOp>, v: KvOp)
    requires Grouped(m, ops)
    ensures Grouped(m[v.input.key := (if v.input.key in m then m[v.input.key] else []) + [v]], ops + [v])
  {
    var m' := m[v.input.key := (if v.input.key in m then m[v.input.key] else []) + [v]];
    forall k
      ensures k in m' <==> HasKey(ops + [v], k)
      ensures k in m' ==> m'[k] == Class(ops + [v], k)
    {
      HasKeyMore(ops, v, k);
      ClassMore(ops, v, k);
      if !HasKey(ops, k) { NoClass(ops, k); }
    }
  }

  lemma HasKeyMore(ops: seq<KvOp>, v: KvOp, k: string)
    ensures HasKey(ops + [v], k) <==> HasKey(ops, k) || v.input.key == k
  {
    if HasKey(ops, k) {
      var p :| 0 <= p < |ops| && ops[p].input.key == k;
      assert (ops + [v])[p].input.key == k;
    }
    if v.input.key == k { assert (ops + [v])[|ops|].input.key == k; }
  }

  lemma ClassMore(ops: seq<KvOp>, v: KvOp, k: string)
    ensures Class(ops + [v], k) == Class(ops, k) + if v.input.key == k then [v] else []
  {
    assert (ops + [v])[..|ops|] == ops;
  }

  lemma NoClass(ops: seq<KvOp>, k: string)
    requires !HasKey(ops, k)
    ensures Class(ops, k) == []
  {
    if |Class(ops, k)| > 0 { FirstHasKey(ops, k); }
  }

  lemma FirstHasKey(ops: seq<KvOp>, k: string)
    requires |Class(ops, k)| > 0
    ensures HasKey(ops, k)
  {
    assert ops[Positions(ops, k)[0]].input.key == k;
  }

  /** Groups by key in one pass. */
  method Group(history: seq<KvOp>) returns (m: map<string, seq<KvOp>>)
    ensures Grouped(m, history)
  {
    hide Grouped;
    m := map[];
    GroupedNone();
    for i := 0 to |history|
      invariant Grouped(m, history[..i])
    {
      var v := history[i];
      GroupedMore(m, history[..i], v);
      assert history[..i + 1] == history[..i] + [v];
      m := m[v.input.key := (if v.input.key in m then m[v.input.key] else []) + [v]];
    }
    assert history[..|history|] == history;
  }

  lemma GroupedNone()
    ensures forall history: seq<KvOp> :: Grouped(map[], history[..0])
  {
  }

  /** The classes come in the order of their keys, whatever order the map has. */
  method Partition(history: seq<KvOp>) returns (ret: seq<seq<KvOp>>, ghost keys: seq<string>)
    ensures PartitionOf(ret, history, keys) && Ascending(keys)
  {
    hide HasKey, Class;
    var m := Group(history);
    var sorted := SortedKeys(m);
    keys := sorted;
    ret := [];
    for i := 0 to |sorted|
      invariant |ret| == i && forall j :: 0 <= j < i ==> ret[j] == Class(history, sorted[j])
    {
      assert sorted[i] in m;
      ret := ret + [m[sorted[i]]];
    }
    forall i, j | 0 <= i < j < |keys|
      ensures keys[i] != keys[j]
    {
      LessOrders(keys[i], keys[i], keys[i]);
    }
  }

  /** Two runs of Partition on one history give the same. */
  lemma PartitionDetermined(history: seq<KvOp>, ret: seq<seq<KvOp>>, keys: seq<string>, ret': seq<seq<KvOp>>, keys': seq<string>)
    requires PartitionOf(ret, history, keys) && Ascending(keys) && PartitionOf(ret', history, keys') && Ascending(keys')
    ensures ret == ret'
  {
    forall k
      ensures k in keys <==> k in keys'
    {
      assert k in keys <==> HasKey(history, k);
    }
    AscendingUnique(keys, keys');
  }

  lemma {:induction false} PartedPositions(history: seq<KvOp>, k: string)
    ensures Positions(Parted(history), k) == Positions(history, k)
  {
    if |history| > 0 {
      var last := |history| - 1;
      PartedPositions(history[..last], k);
      assert Parted(history)[..last] == Parted(history[..last]);
    }
  }

  function PartedAll(ret: seq<seq<KvOp>>): seq<seq<KvOp>>
  {
    seq(|ret|, i requires 0 <= i < |ret| => Parted(ret[i]))
  }

  /** Reading ties one way and partitioning can be done in any order. */
  lemma PartedPartition(ret: seq<seq<KvOp>>, history: seq<KvOp>, keys: seq<string>)
    requires PartitionOf(ret, history, keys)
    ensures PartitionOf(PartedAll(ret), Parted(history), keys)
  {
    forall k
      ensures HasKey(Parted(history), k) <==> HasKey(history, k)
    {
      if HasKey(history, k) {
        var p :| 0 <= p < |history| && history[p].input.key == k;
        assert Parted(history)[p].input.key == k;
      }
      if HasKey(Parted(history), k) {
        var p :| 0 <= p < |history| && Parted(history)[p].input.key == k;
        assert history[p].input.key == k;
      }
    }
    forall i | 0 <= i < |ret|
      ensures PartedAll(ret)[i] == Class(Parted(history), keys[i])
    {
      PartedPositions(history, keys[i]);
    }
  }

  lemma ClassLasting(history: seq<KvOp>, k: string)
    requires Lasting(history)
    ensures Lasting(Class(history, k))
  {
    var ps := Positions(history, k);
    forall i | 0 <= i < |ps|
      ensures Class(history, k)[i].call < Class(history, k)[i].ret
    {
      assert history[ps[i]].call < history[ps[i]].ret;
    }
  }

  // ---------------------------------------------------------------------------------------------
  // The verdict
  // ---------------------------------------------------------------------------------------------

  /** Whatever is recorded for an operation is a partial linearization with it, and the longest when the search failed
      and everything is wanted. */
  ghost predicate Informs<S, I, O>(m: Model<S, I, O>, h: seq<Entry<I, O>>, n: nat, longest: seq<Option<seq<int>>>, all: bool)
    requires WellFormed(h, n)
  {
    && |longest| == n
    && (forall i :: 0 <= i < n && longest[i].Some? ==> Partial(m, h, n, longest[i].value) && i in longest[i].value)
    && (Linearizable(m, h, n) ==> forall i :: 0 <= i < n ==> longest[i].Some? && Linearization(m, h, n, longest[i].value))
    && (all && !Linearizable(m, h, n) ==> forall i :: 0 <= i < n ==> IsLongest(m, h, n, longest[i], i))
  }

  lemma LinearizationHasAll<S, I, O>(m: Model<S, I, O>, h: seq<Entry<I, O>>, n: nat, order: seq<int>, i: int)
    requires WellFormed(h, n) && Linearization(m, h, n, order) && 0 <= i < n
    ensures Partial(m, h, n, order) && i in order
  {
    CompletePartial(m, h, n, order);
    var j := Reached(order, n, i);
  }

  method Search<S(==, !new), I(!new), O(!new)>(m: Model<S, I, O>, h: seq<Entry<I, O>>, ghost n: nat, computeInfo: bool)
    returns (ok: bool, longest: seq<Option<seq<int>>>)
    requires WellFormed(h, n)
    ensures ok <==> Linearizable(m, h, n)
    ensures Informs(m, h, n, longest, computeInfo)
  {
    ok, longest := CheckSingle(m, h, n, computeInfo);
    if ok {
      forall i | 0 <= i < n
        ensures Partial(m, h, n, longest[i].value) && i in longest[i].value
      {
        LinearizationHasAll(m, h, n, longest[i].value, i);
      }
    }
  }

  /** Searches every class and takes the conjunction; stops at the first failure unless all the information
      is wanted. */
  method CheckParallel<S(==, !new), I(!new), O(!new)>(m: Model<S, I, O>, histories: seq<seq<Entry<I, O>>>, ghost ns: seq<nat>, computeInfo: bool)
    returns (ok: bool, longest: seq<seq<Option<seq<int>>>>)
    requires |histories| > 0 && |ns| == |histories|
    requires forall i :: 0 <= i < |ns| ==> WellFormed(histories[i], ns[i])
    ensures ok <==> forall i :: 0 <= i < |ns| ==> Linearizable(m, histories[i], ns[i])
    ensures |longest| <= |ns| && (computeInfo || ok ==> |longest| == |ns|)
    ensures forall i :: 0 <= i < |longest| ==> Informs(m, histories[i], ns[i], longest[i], computeInfo)
  {
    hide Linearizable, Informs, WellFormed;
    ok, longest := true, [];
    for i := 0 to |histories|
      invariant |longest| == i && (!ok ==> computeInfo)
      invariant ok <==> forall j :: 0 <= j < i ==> Linearizable(m, histories[j], ns[j])
      invariant forall j :: 0 <= j < i ==> Informs(m, histories[j], ns[j], longest[j], computeInfo)
    {
      var result, l := Search(m, histories[i], ns[i], computeInfo);
      longest := longest + [l];
      ok := ok && result;
      if !ok && !computeInfo {
        return;
      }
    }
  }

  /** The searched histories are the sorted classes. */
  ghost predicate AllSorted(hs: seq<seq<Entry<KvInput, KvOutput>>>, partitions: seq<seq<KvOp>>)
  {
    |hs| == |partitions| && forall i :: 0 <= i < |hs| ==> Faithful(hs[i], partitions[i])
  }

  /** A key-value history is accepted exactly when it is linearizable against the whole map. Where a return and a call
      have one time the sort may put either first: what is accepted is linearizable still, and what is linearizable
      with each tie read as one after the other is accepted. For every class that was searched the records are right. */
  method CheckOperations(history: seq<KvOp>, verbose: bool)
    returns (ok: bool, partitions: seq<seq<KvOp>>, hs: seq<seq<Entry<KvInput, KvOutput>>>, longest: seq<seq<Option<seq<int>>>>,
             ghost keys: seq<string>)
    requires Lasting(history) && |history| > 0
    ensures ok ==> LinearizableOps(MapModel(), history)
    ensures LinearizableOps(MapModel(), Parted(history)) ==> ok
    ensures Untied(history) ==> (ok <==> LinearizableOps(MapModel(), history))
    ensures PartitionOf(partitions, history, keys) && Ascending(keys) && AllSorted(hs, partitions)
    ensures |longest| <= |hs| && (verbose || ok ==> |longest| == |hs|)
    ensures forall i :: 0 <= i < |longest| ==> Informs(KvModel(), hs[i], |partitions[i]|, longest[i], verbose)
  {
    hide LinearizableOps, Lasting, Untied, Faithful, WellFormed, Informs, Linearizable, PartitionOf;
    partitions, keys := Partition(history);
    hs := [];
    for i := 0 to |partitions|
      invariant |hs| == i && forall j :: 0 <= j < i ==> Faithful(hs[j], partitions[j])
    {
      OneLasting(partitions, history, keys, i);
      var h := MakeEntries(partitions[i]);
      hs := hs + [h];
    }
    ghost var ns := seq(|hs|, i requires 0 <= i < |hs| => |partitions[i]|);
    forall i | 0 <= i < |hs|
      ensures WellFormed(hs[i], ns[i])
    {
      SortedIsWellFormed(hs[i], partitions[i]);
    }
    KeysNonempty(history, partitions, keys);
    ok, longest := CheckParallel(KvModel(), hs, ns, verbose);
    Verdict(history, partitions, keys, hs, ns, ok);
  }

  lemma SortedIsWellFormed(h: seq<Entry<KvInput, KvOutput>>, part: seq<KvOp>)
    requires Faithful(h, part)
    ensures WellFormed(h, |part|)
  {
  }

  lemma OneLasting(partitions: seq<seq<KvOp>>, history: seq<KvOp>, keys: seq<string>, i: nat)
    requires PartitionOf(partitions, history, keys) && Lasting(history) && i < |partitions|
    ensures Lasting(partitions[i])
  {
    ClassLasting(history, keys[i]);
  }

  /** From the verdicts on the sorted classes to the verdict on the whole history, by locality. */
  lemma Verdict(history: seq<KvOp>, partitions: seq<seq<KvOp>>, keys: seq<string>, hs: seq<seq<Entry<KvInput, KvOutput>>>, ns: seq<nat>, ok: bool)
    requires PartitionOf(partitions, history, keys) && Lasting(history) && AllSorted(hs, partitions)
    requires |ns| == |hs| && forall i :: 0 <= i < |ns| ==> ns[i] == |partitions[i]| && WellFormed(hs[i], ns[i])
    requires ok <==> forall i :: 0 <= i < |ns| ==> Linearizable(KvModel(), hs[i], ns[i])
    ensures ok ==> LinearizableOps(MapModel(), history)
    ensures LinearizableOps(MapModel(), Parted(history)) ==> ok
    ensures Untied(history) ==> (ok <==> LinearizableOps(MapModel(), history))
  {
    hide LinearizableOps, Linearizable, Faithful, WellFormed;
    forall i | 0 <= i < |hs|
      ensures Linearizable(KvModel(), hs[i], ns[i]) ==> LinearizableOps(KvModel(), partitions[i])
      ensures LinearizableOps(KvModel(), PartedAll(partitions)[i]) ==> Linearizable(KvModel(), hs[i], ns[i])
    {
      EntriesSame(KvModel(), partitions[i], hs[i]);
    }
    Locality(history, partitions, keys);
    PartedPartition(partitions, history, keys);
    Locality(Parted(history), PartedAll(partitions), keys);
    if Untied(history) { UntiedSame(MapModel(), history); }
  }

  lemma KeysNonempty(history: seq<KvOp>, partitions: seq<seq<KvOp>>, keys: seq<string>)
    requires PartitionOf(partitions, history, keys) && |history| > 0
    ensures |partitions| > 0
  {
    assert HasKey(history, history[0].input.key);
    assert history[0].input.key in keys;
  }

  /** Events with arbitrary ids, each called once and then returning once. */
  method CheckEvents<S(==, !new), I(!new), O(!new)>(m: Model<S, I, O>, partitions: seq<seq<Entry<I, O>>>, verbose: bool)
    returns (ok: bool, longest: seq<seq<Option<seq<int>>>>, ghost ns: seq<nat>, ghost l: seq<seq<Entry<I, O>>>)
    requires |partitions| > 0 && forall i :: 0 <= i < |partitions| ==> Paired(partitions[i])
    ensures |ns| == |l| == |partitions|
    ensures forall i :: 0 <= i < |l| ==> Renames(l[i], partitions[i]) && WellFormed(l[i], ns[i])
    ensures ok <==> forall i :: 0 <= i < |l| ==> Linearizable(m, l[i], ns[i])
    ensures |longest| <= |l| && (verbose || ok ==> |longest| == |l|)
    ensures forall i :: 0 <= i < |longest| ==> Informs(m, l[i], ns[i], longest[i], verbose)
  {
    hide Linearizable, WellFormed, Renames, Paired, Informs;
    var hs: seq<seq<Entry<I, O>>> := [];
    ns := [];
    for i := 0 to |partitions|
      invariant |hs| == |ns| == i
      invariant forall j :: 0 <= j < i ==> Renames(hs[j], partitions[j]) && WellFormed(hs[j], ns[j])
    {
      var h, n := Renumber(partitions[i]);
      RenumberedWellFormed(partitions[i], h, n);
      hs, ns := hs + [h], ns + [n];
    }
    l := hs;
    ok, longest := CheckParallel(m, hs, ns, verbose);
  }

  // ---------------------------------------------------------------------------------------------
  // Replaying what was recorded
  // ---------------------------------------------------------------------------------------------

  /** The states along a recorded partial linearization. The model accepts every step, so the panic for a
      step that it refuses is never reached. */
  method Replay<S, I, O>(m: Model<S, I, O>, ghost h: seq<Entry<I, O>>, ghost n: nat, callValue: map<int, I>, returnValue: map<int, O>, partial: seq<int>)
    returns (states: seq<S>)
    requires WellFormed(h, n) && Partial(m, h, n, partial) && ValuesOf(h, n, callValue, returnValue)
    ensures |states| == |partial| && forall j :: 0 <= j < |states| ==> Perform(m, h, n, partial[..j + 1]) == Some(states[j])
  {
    hide Perform, Partial, WellFormed;
    states := [];
    var state := m.init;
    IsPartialOrder(m, h, n, partial);
    NothingPerformed(m, h, n, partial);
    for j := 0 to |partial|
      invariant |states| == j && Perform(m, h, n, partial[..j]) == Some(state)
      invariant forall i :: 0 <= i < j ==> Perform(m, h, n, partial[..i + 1]) == Some(states[i])
    {
      var (ok, state') := m.step(state, callValue[partial[j]], returnValue[partial[j]]);
      PrefixStep(m, h, n, partial, j);
      assert ok;
      state := state';
      states := states + [state];
    }
  }

  /** What each operation was called with and what it returned. */
  ghost predicate ValuesOf<I, O>(h: seq<Entry<I, O>>, n: nat, callValue: map<int, I>, returnValue: map<int, O>)
    requires WellFormed(h, n)
  {
    && (forall id :: 0 <= id < n ==> id in callValue && callValue[id] == h[CallAt(h, n, id)].input)
    && (forall id :: 0 <= id < n ==> id in returnValue && returnValue[id] == h[ReturnAt(h, n, id)].output)
  }

  method Values<I, O>(h: seq<Entry<I, O>>, ghost n: nat) returns (callValue: map<int, I>, returnValue: map<int, O>)
    requires WellFormed(h, n)
    ensures ValuesOf(h, n, callValue, returnValue)
  {
    callValue, returnValue := map[], map[];
    for i := 0 to |h|
      invariant forall j :: 0 <= j < i && h[j].CallEntry? ==> h[j].id in callValue && callValue[h[j].id] == h[j].input
      invariant forall j :: 0 <= j < i && h[j].ReturnEntry? ==> h[j].id in returnValue && returnValue[h[j].id] == h[j].output
    {
      match h[i]
      case CallEntry(id, input) => callValue := callValue[id := input];
      case ReturnEntry(id, output) => returnValue := returnValue[id := output];
    }
    forall id | 0 <= id < n
      ensures id in callValue && callValue[id] == h[CallAt(h, n, id)].input
      ensures id in returnValue && returnValue[id] == h[ReturnAt(h, n, id)].output
    {
      assert IsOperation(h, id, CallAt(h, n, id), ReturnAt(h, n, id));
    }
  }

  /** The replay of one record: none for an operation without one. */
  ghost predicate Replays<S, I, O>(m: Model<S, I, O>, h: seq<Entry<I, O>>, n: nat, longest: Option<seq<int>>, states: seq<S>)
    requires WellFormed(h, n) && (longest.Some? ==> IsOrder(longest.value, n))
  {
    match longest
    case None => states == []
    case Some(order) =>
      |states| == |order| && forall j :: 0 <= j < |states| ==> Perform(m, h, n, order[..j + 1]) == Some(states[j])
  }

  ghost predicate AllReplay<S, I, O>(m: Model<S, I, O>, h: seq<Entry<I, O>>, n: nat, longest: seq<Option<seq<int>>>, states: seq<seq<S>>)
    requires WellFormed(h, n)
  {
    |states| == |longest| && forall id :: 0 <= id < |longest| ==>
      (longest[id].Some? ==> IsOrder(longest[id].value, n)) && Replays(m, h, n, longest[id], states[id])
  }

  /** All records that a check of one class left are replayed to the end. */
  method ReplayClass<S, I, O>(m: Model<S, I, O>, h: seq<Entry<I, O>>, ghost n: nat, longest: seq<Option<seq<int>>>, ghost all: bool)
    returns (states: seq<seq<S>>)
    requires WellFormed(h, n) && Informs(m, h, n, longest, all)
    ensures AllReplay(m, h, n, longest, states)
  {
    hide Perform, WellFormed;
    var callValue, returnValue := Values(h, n);
    states := [];
    for id := 0 to |longest|
      invariant AllReplay(m, h, n, longest[..id], states)
    {
      var one: seq<S> := [];
      if longest[id].Some? {
        IsPartialOrder(m, h, n, longest[id].value);
        one := Replay(m, h, n, callValue, returnValue, longest[id].value);
      }
      states := states + [one];
    }
    assert longest[..|longest|] == longest;
  }

  /** A verbose check of a key-value history: every record of every class can be replayed, so drawing the picture never
      panics. */
  method CheckAndReplay(history: seq<KvOp>)
    returns (ok: bool, hs: seq<seq<Entry<KvInput, KvOutput>>>, longest: seq<seq<Option<seq<int>>>>,
             states: seq<seq<seq<string>>>, ghost partitions: seq<seq<KvOp>>)
    requires Lasting(history) && |history| > 0
    ensures Untied(history) ==> (ok <==> LinearizableOps(MapModel(), history))
    ensures AllSorted(hs, partitions) && |longest| == |states| == |hs|
    ensures forall i :: 0 <= i < |hs| ==> AllReplay(KvModel(), hs[i], |partitions[i]|, longest[i], states[i])
  {
    hide LinearizableOps, Lasting, Untied, Faithful, WellFormed, Informs, AllReplay, PartitionOf, Ascending;
    ghost var keys;
    ok, partitions, hs, longest, keys := CheckOperations(history, true);
    states := [];
    forall i | 0 <= i < |hs|
      ensures WellFormed(hs[i], |partitions[i]|)
    {
      SortedIsWellFormed(hs[i], partitions[i]);
    }
    for i := 0 to |hs|
      invariant |states| == i
      invariant forall j :: 0 <= j < i ==> AllReplay(KvModel(), hs[j], |partitions[j]|, longest[j], states[j])
    {
      var one := ReplayClass(KvModel(), hs[i], |partitions[i]|, longest[i], true);
      states := states + [one];
    }
  }

  lemma IsPartialOrder<S, I, O>(m: Model<S, I, O>, h: seq<Entry<I, O>>, n: nat, order: seq<int>)
    requires WellFormed(h, n) && Partial(m, h, n, order)
    ensures IsOrder(order, n)
  {
  }

  lemma NothingPerformed<S, I, O>(m: Model<S, I, O>, h: seq<Entry<I, O>>, n: nat, order: seq<int>)
    requires WellFormed(h, n) && IsOrder(order, n)
    ensures Perform(m, h, n, order[..0]) == Some(m.init)
  {
  }

  lemma PrefixStep<S, I, O>(m: Model<S, I, O>, h: seq<Entry<I, O>>, n: nat, order: seq<int>, j: nat)
    requires WellFormed(h, n) && Partial(m, h, n, order) && j < |order|
    ensures Perform(m, h, n, order[..j]).Some?
    ensures var (ok, state) := StepOf(m, h, n, Perform(m, h, n, order[..j]).value, order[j]);
            ok && Perform(m, h, n, order[..j + 1]) == Some(state)
  {
    PrefixPerforms(m, h, n, order, j + 1);
    assert order[..j + 1][..j] == order[..j];
  }

  lemma {:induction false} PrefixPerforms<S, I, O>(m: Model<S, I, O>, h: seq<Entry<I, O>>, n: nat, order: seq<int>, j: nat)
    requires WellFormed(h, n) && IsOrder(order, n) && Perform(m, h, n, order).Some? && j <= |order|
    ensures Perform(m, h, n, order[..j]).Some?
    decreases |order|
  {
    if j < |order| {
      PrefixPerforms(m, h, n, order[..|order| - 1], j);
      assert order[..|order| - 1][..j] == order[..j];
    } else {
      assert order[..j] == order;
    }
  }
}
