/** The key-value model that the checker runs on one key at a time, its partition by key, and why that is
    enough: linearizability is local (Herlihy and Wing 1990, section 3.1). */
module PorcupineKv {
  import opened PorcupineSearch
  import opened PorcupineHistory
  import opened PorcupineEntries

  /** op: 0 is get, 1 is put, anything else is append. */
  datatype KvInput = KvInput(op: nat, key: string, value: string)
  datatype KvOutput = KvOutput(value: string)

  type KvOp = Operation<KvInput, KvOutput>

  /** One key's value. */
  function KvStep(st: string, inp: KvInput, out: KvOutput): (bool, string)
  {
    if inp.op == 0 then (out.value == st, st)
    else if inp.op == 1 then (true, inp.value)
    else (true, st + inp.value)
  }

  function KvModel(): Model<string, KvInput, KvOutput>
  {
    Model("", KvStep)
  }

  type Store = map<string, string>

  function Lookup(st: Store, key: string): string
  {
    if key in st then st[key] else ""
  }

  /** The object that clients see: a whole map. */
  function MapStep(st: Store, inp: KvInput, out: KvOutput): (bool, Store)
  {
    if inp.op == 0 then (out.value == Lookup(st, inp.key), st)
    else if inp.op == 1 then (true, st[inp.key := inp.value])
    else (true, st[inp.key := Lookup(st, inp.key) + inp.value])
  }

  function MapModel(): Model<Store, KvInput, KvOutput>
  {
    Model(map[], MapStep)
  }

  // ---------------------------------------------------------------------------------------------
  // The classes of a history
  // ---------------------------------------------------------------------------------------------

  /** The positions of the operations on key k, in order. */
  function Positions(ops: seq<KvOp>, k: string): (ps: seq<int>)
    ensures forall j :: 0 <= j < |ps| ==> 0 <= ps[j] < |ops| && ops[ps[j]].input.key == k
    ensures forall i, j :: 0 <= i < j < |ps| ==> ps[i] < ps[j]
    ensures forall p :: 0 <= p < |ops| && ops[p].input.key == k ==> p in ps
  {
    if |ops| == 0 then [] else
    var last := |ops| - 1;
    Positions(ops[..last], k) + if ops[last].input.key == k then [last] else []
  }

  /** The operations on key k, in order. */
  function Class(ops: seq<KvOp>, k: string): seq<KvOp>
  {
    seq(|Positions(ops, k)|, j requires 0 <= j < |Positions(ops, k)| => ops[Positions(ops, k)[j]])
  }

  ghost predicate HasKey(ops: seq<KvOp>, k: string)
  {
    exists p :: 0 <= p < |ops| && ops[p].input.key == k
  }

  /** Each key of the history once. */
  ghost predicate KeysOf(keys: seq<string>, ops: seq<KvOp>)
  {
    && (forall i, j :: 0 <= i < j < |keys| ==> keys[i] != keys[j])
    && (forall k :: k in keys <==> HasKey(ops, k))
  }

  ghost predicate PartitionOf(ret: seq<seq<KvOp>>, ops: seq<KvOp>, keys: seq<string>)
  {
    KeysOf(keys, ops) && |ret| == |keys| && forall i :: 0 <= i < |ret| ==> ret[i] == Class(ops, keys[i])
  }

  /** Operation p is the j-th of class i. */
  ghost predicate Placed(ret: seq<seq<KvOp>>, ops: seq<KvOp>, keys: seq<string>, p: int, i: int, j: int)
  {
    && |ret| == |keys| && 0 <= i < |ret| && 0 <= j < |ret[i]| == |Positions(ops, keys[i])|
    && 0 <= p < |ops| && Positions(ops, keys[i])[j] == p && ret[i][j] == ops[p]
  }

  /** Every operation is in some class. */
  lemma InSomeClass(ret: seq<seq<KvOp>>, ops: seq<KvOp>, keys: seq<string>, p: int) returns (i: int, j: int)
    requires PartitionOf(ret, ops, keys) && 0 <= p < |ops|
    ensures Placed(ret, ops, keys, p, i, j)
  {
    var k := ops[p].input.key;
    assert HasKey(ops, k);
    i :| 0 <= i < |keys| && keys[i] == k;
    var ps := Positions(ops, k);
    assert p in ps;
    j :| 0 <= j < |ps| && ps[j] == p;
  }

  /** No operation is in two classes or twice in one, and a class keeps the order of the history. */
  lemma InOneClass(ret: seq<seq<KvOp>>, ops: seq<KvOp>, keys: seq<string>, p: int, i: int, j: int, q: int, i': int, j': int)
    requires PartitionOf(ret, ops, keys) && Placed(ret, ops, keys, p, i, j) && Placed(ret, ops, keys, q, i', j')
    ensures p == q <==> i == i' && j == j'
    ensures i == i' ==> (p < q <==> j < j')
  {
    if p == q { assert keys[i] == keys[i']; }
  }

  // ---------------------------------------------------------------------------------------------
  // Splitting an order by key
  // ---------------------------------------------------------------------------------------------

  predicate InOps(ops: seq<KvOp>, order: seq<int>)
  {
    forall i :: 0 <= i < |order| ==> 0 <= order[i] < |ops|
  }

  function OfKey(ops: seq<KvOp>, order: seq<int>, k: string): (r: seq<int>)
    requires InOps(ops, order)
    ensures InOps(ops, r)
  {
    if |order| == 0 then [] else
    var last := order[|order| - 1];
    OfKey(ops, order[..|order| - 1], k) + if ops[last].input.key == k then [last] else []
  }

  lemma {:induction false} KeyMembers(ops: seq<KvOp>, order: seq<int>, k: string, x: int)
    requires InOps(ops, order)
    ensures x in OfKey(ops, order, k) <==> x in order && ops[x].input.key == k
  {
    if |order| > 0 {
      KeyMembers(ops, order[..|order| - 1], k, x);
      assert order == order[..|order| - 1] + [order[|order| - 1]];
    }
  }

  /** What one key makes of its part of an order. */
  ghost function KeyRun(ops: seq<KvOp>, order: seq<int>, k: string): Option<string>
    requires InOps(ops, order)
  {
    Run(KvModel(), ops, OfKey(ops, order, k))
  }

  lemma KeyRunLast(ops: seq<KvOp>, order: seq<int>, k: string)
    requires InOps(ops, order) && |order| > 0
    ensures var shorter, op := order[..|order| - 1], ops[order[|order| - 1]];
            KeyRun(ops, order, k) == if op.input.key != k then KeyRun(ops, shorter, k) else
                                     if KeyRun(ops, shorter, k).None? then None else
                                     var (ok, st) := KvStep(KeyRun(ops, shorter, k).value, op.input, op.output);
                                     if ok then Some(st) else None
  {
    var shorter, id := order[..|order| - 1], order[|order| - 1];
    var part, before := OfKey(ops, order, k), OfKey(ops, shorter, k);
    if ops[id].input.key == k {
      assert part == before + [id] && part[..|part| - 1] == before;
    } else {
      assert part == before + [] == before;
    }
  }

  /** The whole map accepts an order exactly when each key accepts its part of it, and then holds each key's value. */
  lemma {:induction false} RunSplits(ops: seq<KvOp>, order: seq<int>)
    requires InOps(ops, order)
    ensures Run(MapModel(), ops, order).Some? <==> forall k :: KeyRun(ops, order, k).Some?
    ensures Run(MapModel(), ops, order).Some? ==>
              forall k :: KeyRun(ops, order, k) == Some(Lookup(Run(MapModel(), ops, order).value, k))
  {
    if |order| > 0 {
      var shorter, op := order[..|order| - 1], ops[order[|order| - 1]];
      RunSplits(ops, shorter);
      forall k { KeyRunLast(ops, order, k); }
      if Run(MapModel(), ops, shorter).None? {
        var k :| KeyRun(ops, shorter, k).None?;
        assert KeyRun(ops, order, k).None?;
      } else {
        var st := Run(MapModel(), ops, shorter).value;
        StepSplits(st, op.input, op.output);
        assert KeyRun(ops, shorter, op.input.key) == Some(Lookup(st, op.input.key));
        assert KeyRun(ops, order, op.input.key).Some? <==> MapStep(st, op.input, op.output).0;
      }
    }
  }

  /** A step on the map is a step on its key and leaves the other keys alone. */
  lemma StepSplits(st: Store, inp: KvInput, out: KvOutput)
    ensures MapStep(st, inp, out).0 == KvStep(Lookup(st, inp.key), inp, out).0
    ensures forall k :: Lookup(MapStep(st, inp, out).1, k) ==
                        if k == inp.key then KvStep(Lookup(st, inp.key), inp, out).1 else Lookup(st, k)
  {
  }

  // ---------------------------------------------------------------------------------------------
  // Merging the keys' orders
  // ---------------------------------------------------------------------------------------------

  lemma {:induction false} OfKeySplits(ops: seq<KvOp>, a: seq<int>, b: seq<int>, k: string)
    requires InOps(ops, a) && InOps(ops, b)
    ensures OfKey(ops, a + b, k) == OfKey(ops, a, k) + OfKey(ops, b, k)
  {
    if |b| == 0 {
      assert a + b == a;
    } else {
      OfKeySplits(ops, a, b[..|b| - 1], k);
      assert (a + b)[..|a + b| - 1] == a + b[..|b| - 1];
    }
  }

  ghost predicate KeyInTime(ops: seq<KvOp>, order: seq<int>, k: string)
    requires InOps(ops, order)
  {
    InTime(ops, OfKey(ops, order, k))
  }

  /** The first operation of an order on the key of operation x. */
  lemma {:induction false} FirstOfKey(ops: seq<KvOp>, order: seq<int>, k: string) returns (q: int)
    requires InOps(ops, order) && exists x :: x in order && ops[x].input.key == k
    ensures 0 <= q < |order| && ops[order[q]].input.key == k && OfKey(ops, order[..q], k) == []
  {
    var shorter := order[..|order| - 1];
    if exists x :: x in shorter && ops[x].input.key == k {
      q := FirstOfKey(ops, shorter, k);
      assert order[..q] == shorter[..q];
    } else {
      q := |order| - 1;
      assert order == shorter + [order[q]];
      var part := OfKey(ops, shorter, k);
      if |part| > 0 {
        assert part[0] in part;
        KeyMembers(ops, shorter, k, part[0]);
      }
    }
  }

  /** An operation that returns no later than any other. */
  lemma {:induction false} EarliestReturn(ops: seq<KvOp>, order: seq<int>) returns (x: int)
    requires InOps(ops, order) && |order| > 0
    ensures x in order && forall z :: z in order ==> ops[x].ret <= ops[z].ret
  {
    var last := order[|order| - 1];
    assert order == order[..|order| - 1] + [last];
    if |order| == 1 {
      x := last;
    } else {
      x := EarliestReturn(ops, order[..|order| - 1]);
      if ops[last].ret < ops[x].ret { x := last; }
    }
  }

  /** Taking out the first operation of its key. */
  lemma TakeFirst(ops: seq<KvOp>, order: seq<int>, q: int, k: string)
    requires InOps(ops, order) && 0 <= q < |order| && OfKey(ops, order[..q], ops[order[q]].input.key) == []
    ensures InOps(ops, order[..q] + order[q + 1..])
    ensures OfKey(ops, order, k) ==
            (if ops[order[q]].input.key == k then [order[q]] else []) + OfKey(ops, order[..q] + order[q + 1..], k)
  {
    hide OfKey;
    var pre, y, post := order[..q], order[q], order[q + 1..];
    assert order == pre + ([y] + post);
    OfKeySplits(ops, pre, [y] + post, k);
    OfKeySplits(ops, [y], post, k);
    OfKeySplits(ops, pre, post, k);
    OfKeyOne(ops, y, k);
    var a, c := OfKey(ops, pre, k), OfKey(ops, post, k);
    if ops[y].input.key == k {
      assert a + ([y] + c) == [y] + (a + c);
    } else {
      assert a + ([] + c) == [] + (a + c);
    }
  }

  lemma OfKeyOne(ops: seq<KvOp>, y: int, k: string)
    requires 0 <= y < |ops|
    ensures OfKey(ops, [y], k) == if ops[y].input.key == k then [y] else []
  {
    assert [y][..0] == [];
  }

  /** The first operation on the key of the one that returns first may come first of all: whatever returned
      before it was called would have returned before its own key let it. */
  lemma MayComeFirst(ops: seq<KvOp>, order: seq<int>, x: int, q: int, z: int)
    requires InOps(ops, order) && 0 <= q < |order| && x in order && z in order
    requires ops[order[q]].call < ops[order[q]].ret && ops[x].ret <= ops[z].ret
    requires var k := ops[x].input.key;
             ops[order[q]].input.key == k && OfKey(ops, order[..q], k) == [] && KeyInTime(ops, order, k)
    ensures !Earlier(ops, z, order[q])
  {
    var k, y := ops[x].input.key, order[q];
    if x != y {
      TakeFirst(ops, order, q, k);
      var part := OfKey(ops, order, k);
      KeyMembers(ops, order, k, x);
      var i :| 0 <= i < |part| && part[i] == x;
      assert !Earlier(ops, part[i], part[0]);
    }
  }

  /** Orders of the keys that each respect real time can be merged into one that does. */
  lemma {:induction false} Merge(ops: seq<KvOp>, order: seq<int>) returns (merged: seq<int>)
    requires IsOrder(order, |ops|) && (forall i :: 0 <= i < |ops| ==> ops[i].call < ops[i].ret)
    requires forall k :: KeyInTime(ops, order, k)
    ensures |merged| == |order| && IsOrder(merged, |ops|) && Ids(merged) == Ids(order)
    ensures InTime(ops, merged) && forall k :: OfKey(ops, merged, k) == OfKey(ops, order, k)
    decreases |order|
  {
    hide OfKey;
    if |order| == 0 {
      merged := [];
    } else {
      var x := EarliestReturn(ops, order);
      var q := FirstOfKey(ops, order, ops[x].input.key);
      var y, rest := order[q], order[..q] + order[q + 1..];
      forall k
        ensures KeyInTime(ops, rest, k)
      {
        TakeFirst(ops, order, q, k);
        RestInTime(ops, order, rest, if ops[y].input.key == k then [y] else [], k);
      }
      var tail := Merge(ops, rest);
      merged := [y] + tail;
      forall z | z in order
        ensures !Earlier(ops, z, y)
      {
        MayComeFirst(ops, order, x, q, z);
      }
      MergedFirst(ops, order, rest, tail, q);
    }
  }

  lemma RestInTime(ops: seq<KvOp>, order: seq<int>, rest: seq<int>, first: seq<int>, k: string)
    requires InOps(ops, order) && InOps(ops, rest) && KeyInTime(ops, order, k)
    requires OfKey(ops, order, k) == first + OfKey(ops, rest, k)
    ensures KeyInTime(ops, rest, k)
  {
    hide OfKey;
    var part, part', d := OfKey(ops, order, k), OfKey(ops, rest, k), |first|;
    forall i, j | 0 <= i < j < |part'|
      ensures !Earlier(ops, part'[j], part'[i])
    {
      assert part'[j] == part[j + d] && part'[i] == part[i + d];
    }
  }

  lemma MergedFirst(ops: seq<KvOp>, order: seq<int>, rest: seq<int>, tail: seq<int>, q: int)
    requires IsOrder(order, |ops|) && 0 <= q < |order| && rest == order[..q] + order[q + 1..]
    requires |tail| == |rest| && IsOrder(tail, |ops|) && Ids(tail) == Ids(rest) && InTime(ops, tail)
    requires forall k :: OfKey(ops, tail, k) == OfKey(ops, rest, k)
    requires OfKey(ops, order[..q], ops[order[q]].input.key) == []
    requires forall z :: z in order ==> !Earlier(ops, z, order[q])
    ensures var merged := [order[q]] + tail;
            && |merged| == |order| && IsOrder(merged, |ops|) && Ids(merged) == Ids(order) && InTime(ops, merged)
            && forall k :: OfKey(ops, merged, k) == OfKey(ops, order, k)
  {
    hide OfKey;
    var y := order[q];
    var merged := [y] + tail;
    forall i | 0 <= i < |tail|
      ensures tail[i] != y && tail[i] in order
    {
      assert tail[i] in Ids(rest);
    }
    SameIds(order, rest, tail, q);
    forall k
      ensures OfKey(ops, merged, k) == OfKey(ops, order, k)
    {
      MergedKey(ops, order, rest, tail, q, k);
    }
  }

  lemma MergedKey(ops: seq<KvOp>, order: seq<int>, rest: seq<int>, tail: seq<int>, q: int, k: string)
    requires InOps(ops, order) && 0 <= q < |order| && rest == order[..q] + order[q + 1..] && InOps(ops, tail)
    requires OfKey(ops, tail, k) == OfKey(ops, rest, k) && OfKey(ops, order[..q], ops[order[q]].input.key) == []
    ensures OfKey(ops, [order[q]] + tail, k) == OfKey(ops, order, k)
  {
    hide OfKey;
    TakeFirst(ops, order, q, k);
    OfKeySplits(ops, [order[q]], tail, k);
    OfKeyOne(ops, order[q], k);
  }

  lemma SameIds(order: seq<int>, rest: seq<int>, tail: seq<int>, q: int)
    requires 0 <= q < |order| && rest == order[..q] + order[q + 1..] && Ids(tail) == Ids(rest)
    ensures Ids([order[q]] + tail) == Ids(order)
  {
    assert order == order[..q] + [order[q]] + order[q + 1..];
    forall z
      ensures z in [order[q]] + tail <==> z in order
    {
      assert z in tail <==> z in Ids(tail);
      assert z in rest <==> z in Ids(rest);
    }
  }

  // ---------------------------------------------------------------------------------------------
  // Between a class and the history
  // ---------------------------------------------------------------------------------------------

  /** An order of a class, and the same order in the numbering of the history. */
  ghost predicate Reindexed(ops: seq<KvOp>, k: string, local: seq<int>, part: seq<int>)
  {
    && |local| == |part| && IsOrder(local, |Class(ops, k)|) && InOps(ops, part)
    && forall i :: 0 <= i < |local| ==> part[i] == Positions(ops, k)[local[i]]
  }

  lemma {:induction false} ReindexedRuns(ops: seq<KvOp>, k: string, local: seq<int>, part: seq<int>)
    requires Reindexed(ops, k, local, part)
    ensures Run(KvModel(), Class(ops, k), local) == Run(KvModel(), ops, part)
  {
    hide Positions;
    if |local| > 0 {
      var last := |local| - 1;
      ReindexedRuns(ops, k, local[..last], part[..last]);
      assert Class(ops, k)[local[last]] == ops[part[last]];
    }
  }

  lemma ReindexedInTime(ops: seq<KvOp>, k: string, local: seq<int>, part: seq<int>)
    requires Reindexed(ops, k, local, part)
    ensures InTime(Class(ops, k), local) <==> InTime(ops, part)
  {
    forall i, j | 0 <= i < j < |local|
      ensures Earlier(Class(ops, k), local[j], local[i]) <==> Earlier(ops, part[j], part[i])
    {
    }
  }

  lemma {:induction false} KeyOrder(ops: seq<KvOp>, order: seq<int>, k: string)
    requires IsOrder(order, |ops|)
    ensures IsOrder(OfKey(ops, order, k), |ops|)
  {
    if |order| > 0 {
      var shorter, last := order[..|order| - 1], order[|order| - 1];
      KeyOrder(ops, shorter, k);
      KeyMembers(ops, shorter, k, last);
      assert last !in shorter;
    }
  }

  lemma {:induction false} KeyKeepsTime(ops: seq<KvOp>, order: seq<int>, k: string)
    requires InOps(ops, order) && InTime(ops, order)
    ensures KeyInTime(ops, order, k)
  {
    if |order| > 0 {
      var shorter, last := order[..|order| - 1], order[|order| - 1];
      KeyKeepsTime(ops, shorter, k);
      var before := OfKey(ops, shorter, k);
      forall i | 0 <= i < |before|
        ensures !Earlier(ops, last, before[i])
      {
        assert before[i] in before;
        KeyMembers(ops, shorter, k, before[i]);
        var j :| 0 <= j < |shorter| && shorter[j] == before[i];
        assert order[j] == before[i];
      }
    }
  }

  /** A complete order has all positions of a key. */
  lemma KeyComplete(ops: seq<KvOp>, order: seq<int>, k: string)
    requires IsOrder(order, |ops|) && |order| == |ops|
    ensures |OfKey(ops, order, k)| == |Positions(ops, k)|
  {
    var part, ps := OfKey(ops, order, k), Positions(ops, k);
    KeyOrder(ops, order, k);
    forall x
      ensures x in part <==> x in ps
    {
      KeyMembers(ops, order, k, x);
      if x in ps { var i := Reached(order, |ops|, x); }
    }
    assert Ids(part) == Ids(ps);
    OrderSize(part, |ops|);
    OrderSize(ps, |ops|);
  }

  ghost function Rank(ps: seq<int>, p: int): (j: int)
    requires p in ps
    ensures 0 <= j < |ps| && ps[j] == p
  {
    var j :| 0 <= j < |ps| && ps[j] == p;
    j
  }

  /** A linearization of the whole history linearizes each class. */
  lemma WholeToClass(ops: seq<KvOp>, k: string)
    requires LinearizableOps(MapModel(), ops)
    ensures LinearizableOps(KvModel(), Class(ops, k))
  {
    var order :| Linearizes(MapModel(), ops, order);
    var part, ps := OfKey(ops, order, k), Positions(ops, k);
    KeyOrder(ops, order, k);
    KeyKeepsTime(ops, order, k);
    KeyComplete(ops, order, k);
    forall i | 0 <= i < |part|
      ensures part[i] in ps
    {
      assert part[i] in part;
      KeyMembers(ops, order, k, part[i]);
    }
    var local := seq(|part|, i requires 0 <= i < |part| => Rank(ps, part[i]));
    assert Reindexed(ops, k, local, part);
    RunSplits(ops, order);
    assert KeyRun(ops, order, k).Some?;
    ReindexedRuns(ops, k, local, part);
    ReindexedInTime(ops, k, local, part);
    assert Linearizes(KvModel(), Class(ops, k), local);
  }

  lemma {:induction false} AllOfKey(ops: seq<KvOp>, part: seq<int>, k: string, k': string)
    requires InOps(ops, part) && forall i :: 0 <= i < |part| ==> ops[part[i]].input.key == k
    ensures OfKey(ops, part, k') == if k' == k then part else []
  {
    if |part| > 0 { AllOfKey(ops, part[..|part| - 1], k, k'); }
  }

  /** One key's share of an order is a linearization of its class. */
  ghost predicate GoodShare(ops: seq<KvOp>, order: seq<int>, k: string)
    requires InOps(ops, order)
  {
    && |OfKey(ops, order, k)| == |Positions(ops, k)|
    && KeyRun(ops, order, k).Some? && KeyInTime(ops, order, k)
  }

  /** The linearization of a class, in the numbering of the history. */
  lemma ClassShare(ops: seq<KvOp>, k: string) returns (part: seq<int>)
    requires LinearizableOps(KvModel(), Class(ops, k))
    ensures IsOrder(part, |ops|) && (forall i :: 0 <= i < |part| ==> ops[part[i]].input.key == k)
    ensures |part| == |Positions(ops, k)| && Run(KvModel(), ops, part).Some? && InTime(ops, part)
  {
    var local :| Linearizes(KvModel(), Class(ops, k), local);
    var ps := Positions(ops, k);
    part := seq(|local|, i requires 0 <= i < |local| => ps[local[i]]);
    assert Reindexed(ops, k, local, part);
    ReindexedRuns(ops, k, local, part);
    ReindexedInTime(ops, k, local, part);
  }

  ghost predicate Shares(ops: seq<KvOp>, keys: seq<string>, order: seq<int>)
  {
    && IsOrder(order, |ops|)
    && (forall k :: k in keys ==> GoodShare(ops, order, k))
    && (forall k :: k !in keys ==> OfKey(ops, order, k) == [])
  }

  /** The classes' linearizations, one after the other. */
  lemma {:induction false} Joined(ops: seq<KvOp>, keys: seq<string>) returns (order: seq<int>)
    requires forall i, j :: 0 <= i < j < |keys| ==> keys[i] != keys[j]
    requires forall k :: k in keys ==> LinearizableOps(KvModel(), Class(ops, k))
    ensures Shares(ops, keys, order)
    decreases |keys|
  {
    hide LinearizableOps, Positions;
    if |keys| == 0 {
      order := [];
    } else {
      hide Shares;
      var before, key := keys[..|keys| - 1], keys[|keys| - 1];
      assert keys == before + [key];
      var front := Joined(ops, before);
      var part := ClassShare(ops, key);
      order := front + part;
      JoinedMore(ops, before, key, front, part);
    }
  }

  lemma JoinedMore(ops: seq<KvOp>, before: seq<string>, key: string, front: seq<int>, part: seq<int>)
    requires Shares(ops, before, front) && key !in before
    requires IsOrder(part, |ops|) && (forall i :: 0 <= i < |part| ==> ops[part[i]].input.key == key)
    requires |part| == |Positions(ops, key)| && Run(KvModel(), ops, part).Some? && InTime(ops, part)
    ensures Shares(ops, before + [key], front + part)
  {
    hide OfKey, Positions, Run, InTime;
    JoinedOrder(ops, front, part, key);
    forall k
      ensures k in before + [key] ==> GoodShare(ops, front + part, k)
      ensures k !in before + [key] ==> OfKey(ops, front + part, k) == []
    {
      JoinedKey(ops, front, part, key, k);
      if k in before { assert GoodShare(ops, front, k); }
    }
  }

  lemma JoinedOrder(ops: seq<KvOp>, front: seq<int>, part: seq<int>, key: string)
    requires IsOrder(front, |ops|) && IsOrder(part, |ops|) && OfKey(ops, front, key) == []
    requires forall i :: 0 <= i < |part| ==> ops[part[i]].input.key == key
    ensures IsOrder(front + part, |ops|)
  {
    forall i | 0 <= i < |front|
      ensures front[i] !in part
    {
      KeyMembers(ops, front, key, front[i]);
    }
  }

  lemma JoinedKey(ops: seq<KvOp>, front: seq<int>, part: seq<int>, key: string, k: string)
    requires InOps(ops, front) && InOps(ops, part) && OfKey(ops, front, key) == []
    requires forall i :: 0 <= i < |part| ==> ops[part[i]].input.key == key
    ensures OfKey(ops, front + part, k) == if k == key then part else OfKey(ops, front, k)
  {
    OfKeySplits(ops, front, part, k);
    AllOfKey(ops, part, key, k);
    assert part == [] + part && OfKey(ops, front, k) + [] == OfKey(ops, front, k);
  }

  /** If the order has all of each class, it has everything. */
  lemma SharesComplete(ops: seq<KvOp>, keys: seq<string>, order: seq<int>)
    requires KeysOf(keys, ops) && IsOrder(order, |ops|) && forall k :: k in keys ==> GoodShare(ops, order, k)
    ensures |order| == |ops|
  {
    forall p | 0 <= p < |ops|
      ensures p in order
    {
      var k := ops[p].input.key;
      assert HasKey(ops, k);
      var part, ps := OfKey(ops, order, k), Positions(ops, k);
      forall x
        ensures x in Ids(part) ==> x in Ids(ps)
      {
        KeyMembers(ops, order, k, x);
      }
      KeyOrder(ops, order, k);
      OrderSize(part, |ops|);
      OrderSize(ps, |ops|);
      SubsetSize(Ids(part), Ids(ps));
      assert p in Ids(ps);
      KeyMembers(ops, order, k, p);
    }
    assert Ids(order) == Range(|ops|);
    OrderSize(order, |ops|);
  }

  /** Linearizations of all classes make a linearization of the whole history. */
  lemma ClassesToWhole(ops: seq<KvOp>, keys: seq<string>)
    requires KeysOf(keys, ops) && forall i :: 0 <= i < |ops| ==> ops[i].call < ops[i].ret
    requires forall k :: k in keys ==> LinearizableOps(KvModel(), Class(ops, k))
    ensures LinearizableOps(MapModel(), ops)
  {
    var order := Joined(ops, keys);
    SharesComplete(ops, keys, order);
    forall k
      ensures KeyInTime(ops, order, k) && KeyRun(ops, order, k).Some?
    {
      if k in keys { assert GoodShare(ops, order, k); }
    }
    var merged := Merge(ops, order);
    forall k
      ensures KeyRun(ops, merged, k).Some?
    {
      assert KeyRun(ops, order, k).Some?;
    }
    RunSplits(ops, merged);
    assert Linearizes(MapModel(), ops, merged);
  }

  /** Locality: a history is linearizable against the whole map exactly when each class of the partition is
      linearizable against one key's value. */
  lemma Locality(ops: seq<KvOp>, ret: seq<seq<KvOp>>, keys: seq<string>)
    requires PartitionOf(ret, ops, keys) && forall i :: 0 <= i < |ops| ==> ops[i].call < ops[i].ret
    ensures LinearizableOps(MapModel(), ops) <==> forall i :: 0 <= i < |ret| ==> LinearizableOps(KvModel(), ret[i])
  {
    if LinearizableOps(MapModel(), ops) {
      forall i | 0 <= i < |ret|
        ensures LinearizableOps(KvModel(), ret[i])
      {
        WholeToClass(ops, keys[i]);
      }
    }
    if forall i :: 0 <= i < |ret| ==> LinearizableOps(KvModel(), ret[i]) {
      forall k | k in keys
        ensures LinearizableOps(KvModel(), Class(ops, k))
      {
        var i :| 0 <= i < |keys| && keys[i] == k;
        assert LinearizableOps(KvModel(), ret[i]);
      }
      ClassesToWhole(ops, keys);
    }
  }
}
