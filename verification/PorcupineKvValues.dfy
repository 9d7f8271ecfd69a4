/** What linearizability of a key-value history says about its answers: the operations can be put in an order that
    respects real time and in which every get answers what the puts and appends before it have left at its key. */
module PorcupineKvValues {
  import W = Writes
  import opened PorcupineSearch
  import opened PorcupineHistory
  import opened PorcupineEntries
  import opened PorcupineKv

  function AccessOf(input: KvInput): W.Access
  {
    if input.op == 0 then W.Read(input.key) else if input.op == 1 then W.Put(input.key, input.value) else W.Append(input.key, input.value)
  }

  /** The accesses of the operations in an order. */
  function AccessesOf(ops: seq<KvOp>, order: seq<int>): seq<W.Access>
    requires forall i :: 0 <= i < |order| ==> 0 <= order[i] < |ops|
  {
    seq(|order|, i requires 0 <= i < |order| => AccessOf(ops[order[i]].input))
  }

  /** If the i-th operation of the order is a get, it answers the value of its key. */
  predicate AnswersRight(ops: seq<KvOp>, order: seq<int>, i: int)
    requires forall j :: 0 <= j < |order| ==> 0 <= order[j] < |ops|
  {
    0 <= i < |order| && ops[order[i]].input.op == 0 ==>
      ops[order[i]].output.value == W.Value(AccessesOf(ops, order)[..i], ops[order[i]].input.key)
  }

  lemma StepIsRight(st: Store, accesses: seq<W.Access>, input: KvInput, output: KvOutput)
    requires W.StoreOf(st, accesses)
    ensures MapStep(st, input, output).0 <==> (input.op == 0 ==> output.value == W.Value(accesses, input.key))
    ensures W.StoreOf(MapStep(st, input, output).1, accesses + [AccessOf(input)])
  {
    assert W.KeyOf(st, accesses, input.key);
    if input.key !in st { W.UnwrittenIsEmpty(accesses, input.key); }
    hide W.Value, W.Written;
    W.StoreMore(st, accesses, AccessOf(input), MapStep(st, input, output).1);
  }

  /** The map accepts an order exactly when all gets in it answer right, and then it holds what was written. */
  lemma {:induction false} RunIsRight(ops: seq<KvOp>, order: seq<int>)
    requires forall i :: 0 <= i < |order| ==> 0 <= order[i] < |ops|
    ensures var r := Run(MapModel(), ops, order);
            && (r.Some? <==> forall i :: AnswersRight(ops, order, i))
            && (r.Some? ==> W.StoreOf(r.value, AccessesOf(ops, order)))
  {
    var accesses := AccessesOf(ops, order);
    if |order| == 0 {
      assert accesses == [];
    } else {
      var k := |order| - 1;
      var shorter, op := order[..k], ops[order[k]];
      RunIsRight(ops, shorter);
      assert accesses[..k] == AccessesOf(ops, shorter);
      assert accesses == accesses[..k] + [AccessOf(op.input)];
      forall i | 0 <= i < k
        ensures AnswersRight(ops, order, i) <==> AnswersRight(ops, shorter, i)
      {
        assert accesses[..i] == AccessesOf(ops, shorter)[..i];
      }
      LastAnswer(ops, order);
      var r := Run(MapModel(), ops, shorter);
      if r.Some? { StepIsRight(r.value, accesses[..k], op.input, op.output); }
    }
  }

  lemma LastAnswer(ops: seq<KvOp>, order: seq<int>)
    requires |order| > 0 && forall i :: 0 <= i < |order| ==> 0 <= order[i] < |ops|
    ensures (forall i :: AnswersRight(ops, order, i)) <==>
            (forall i :: 0 <= i < |order| - 1 ==> AnswersRight(ops, order, i)) && AnswersRight(ops, order, |order| - 1)
  {
    if (forall i :: 0 <= i < |order| - 1 ==> AnswersRight(ops, order, i)) && AnswersRight(ops, order, |order| - 1) {
      forall i ensures AnswersRight(ops, order, i) { if i == |order| - 1 {} }
    }
  }

  /** An order of all operations that respects real time and in which every get answers right. */
  ghost predicate Explains(ops: seq<KvOp>, order: seq<int>)
  {
    && |order| == |ops| && IsOrder(order, |ops|) && InTime(ops, order)
    && forall i :: AnswersRight(ops, order, i)
  }

  /** A key-value history is linearizable against the whole map exactly when some order explains all answers. */
  lemma LinearizableMeans(ops: seq<KvOp>)
    ensures LinearizableOps(MapModel(), ops) <==> exists order :: Explains(ops, order)
  {
    if LinearizableOps(MapModel(), ops) {
      var order :| Linearizes(MapModel(), ops, order);
      RunIsRight(ops, order);
      assert Explains(ops, order);
    }
    if exists order :: Explains(ops, order) {
      var order :| Explains(ops, order);
      RunIsRight(ops, order);
      assert Linearizes(MapModel(), ops, order);
    }
  }
}
