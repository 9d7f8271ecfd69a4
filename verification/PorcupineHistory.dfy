/** Histories of concurrent operations, sequential models, and what it means to linearize one by the other. */
module PorcupineHistory {
  import opened PorcupineSearch

  /** An invocation with its input or a response with its output; both carry the operation's id. */
  datatype Entry<+I, +O> = CallEntry(id: int, input: I) | ReturnEntry(id: int, output: O)

  /** The sequential object. `step` says whether an operation may happen in a state, and the state after. */
  datatype Model<!S, !I, !O> = Model(init: S, step: (S, I, O) -> (bool, S))

  // ---------------------------------------------------------------------------------------------
  // Histories
  // ---------------------------------------------------------------------------------------------

  /** Operation id is called at position c and returns at position r. */
  predicate IsOperation<I, O>(h: seq<Entry<I, O>>, id: int, c: int, r: int)
  {
    && 0 <= c < r < |h|
    && h[c].CallEntry? && h[c].id == id
    && h[r].ReturnEntry? && h[r].id == id
  }

  /** Ids 0..n-1, each called once and then returning once. */
  ghost predicate WellFormed<I, O>(h: seq<Entry<I, O>>, n: nat)
  {
    && |h| == 2 * n
    && (forall i :: 0 <= i < |h| ==> 0 <= h[i].id < n)
    && (forall id :: 0 <= id < n ==> Completes(h, id))
    && (forall i, j :: 0 <= i < j < |h| && h[i].id == h[j].id ==> h[i].CallEntry? && h[j].ReturnEntry?)
  }

  ghost predicate Completes<I, O>(h: seq<Entry<I, O>>, id: int)
  {
    exists c, r :: IsOperation(h, id, c, r)
  }

  ghost function CallAt<I, O>(h: seq<Entry<I, O>>, n: nat, id: int): (c: int)
    requires WellFormed(h, n) && 0 <= id < n
    ensures exists r :: IsOperation(h, id, c, r)
  {
    assert Completes(h, id);
    var c :| exists r :: IsOperation(h, id, c, r);
    c
  }

  ghost function ReturnAt<I, O>(h: seq<Entry<I, O>>, n: nat, id: int): (r: int)
    requires WellFormed(h, n) && 0 <= id < n
    ensures IsOperation(h, id, CallAt(h, n, id), r)
  {
    var r :| IsOperation(h, id, CallAt(h, n, id), r);
    r
  }

  lemma PositionsUnique<I, O>(h: seq<Entry<I, O>>, n: nat, i: int)
    requires WellFormed(h, n) && 0 <= i < |h|
    ensures h[i].CallEntry? ==> i == CallAt(h, n, h[i].id)
    ensures h[i].ReturnEntry? ==> i == ReturnAt(h, n, h[i].id)
  {
    var c, r := CallAt(h, n, h[i].id), ReturnAt(h, n, h[i].id);
    assert IsOperation(h, h[i].id, c, r);
  }

  /** Operation x returned before operation y was called. */
  ghost predicate Before<I, O>(h: seq<Entry<I, O>>, n: nat, x: int, y: int)
    requires WellFormed(h, n) && 0 <= x < n && 0 <= y < n
  {
    ReturnAt(h, n, x) < CallAt(h, n, y)
  }

  // ---------------------------------------------------------------------------------------------
  // Linearizations
  // ---------------------------------------------------------------------------------------------

  ghost predicate IsOrder(order: seq<int>, n: nat)
  {
    && (forall i :: 0 <= i < |order| ==> 0 <= order[i] < n)
    && (forall i, j :: 0 <= i < j < |order| ==> order[i] != order[j])
  }

  ghost function Ids(order: seq<int>): (s: set<int>)
  {
    set x | x in order
  }

  ghost function StepOf<S, I, O>(m: Model<S, I, O>, h: seq<Entry<I, O>>, n: nat, state: S, id: int): (bool, S)
    requires WellFormed(h, n) && 0 <= id < n
  {
    m.step(state, h[CallAt(h, n, id)].input, h[ReturnAt(h, n, id)].output)
  }

  /** The state after performing the operations in the given order, if the model accepts every step. */
  ghost function Perform<S, I, O>(m: Model<S, I, O>, h: seq<Entry<I, O>>, n: nat, order: seq<int>): Option<S>
    requires WellFormed(h, n) && IsOrder(order, n)
  {
    if |order| == 0 then Some(m.init) else
    match Perform(m, h, n, order[..|order| - 1])
    case None => None
    case Some(state) =>
      var (ok, state') := StepOf(m, h, n, state, order[|order| - 1]);
      if ok then Some(state') else None
  }

  /** No operation stands before one that had returned when it was called. */
  ghost predicate RealTime<I, O>(h: seq<Entry<I, O>>, n: nat, order: seq<int>)
    requires WellFormed(h, n) && IsOrder(order, n)
  {
    forall i, j :: 0 <= i < j < |order| ==> !Before(h, n, order[j], order[i])
  }

  /** A linearization: all operations, once each, in an order that the model accepts and that never puts an
      operation before one that had returned when it was called. */
  ghost predicate Linearization<S, I, O>(m: Model<S, I, O>, h: seq<Entry<I, O>>, n: nat, order: seq<int>)
    requires WellFormed(h, n)
  {
    |order| == n && IsOrder(order, n) && Perform(m, h, n, order).Some? && RealTime(h, n, order)
  }

  ghost predicate Linearizable<S, I, O>(m: Model<S, I, O>, h: seq<Entry<I, O>>, n: nat)
    requires WellFormed(h, n)
  {
    exists order :: Linearization(m, h, n, order)
  }

  /** Operation id may be next once exactly `done` have happened: everything that returned before it is done. */
  ghost predicate Minimal<I, O>(h: seq<Entry<I, O>>, n: nat, done: set<int>, id: int)
    requires WellFormed(h, n)
  {
    0 <= id < n && id !in done && forall x {:trigger Before(h, n, x, id)} :: 0 <= x < n && Before(h, n, x, id) ==> x in done
  }

  /** A legal partial linearization: some operations, each performed after all that returned before it. */
  ghost predicate Partial<S, I, O>(m: Model<S, I, O>, h: seq<Entry<I, O>>, n: nat, order: seq<int>)
    requires WellFormed(h, n)
  {
    && IsOrder(order, n) && Perform(m, h, n, order).Some?
    && forall i :: 0 <= i < |order| ==> Minimal(h, n, Ids(order[..i]), order[i])
  }

  lemma PartialExtends<S, I, O>(m: Model<S, I, O>, h: seq<Entry<I, O>>, n: nat, order: seq<int>, id: int)
    requires WellFormed(h, n) && Partial(m, h, n, order) && Minimal(h, n, Ids(order), id)
    requires StepOf(m, h, n, Perform(m, h, n, order).value, id).0
    ensures Partial(m, h, n, order + [id]) && Ids(order + [id]) == Ids(order) + {id}
    ensures Perform(m, h, n, order + [id]) == Some(StepOf(m, h, n, Perform(m, h, n, order).value, id).1)
  {
    var longer := order + [id];
    assert longer[..|order|] == order;
    forall i | 0 <= i < |longer|
      ensures Minimal(h, n, Ids(longer[..i]), longer[i])
    {
      if i < |order| { assert longer[..i] == order[..i]; }
    }
    forall i, j | 0 <= i < j < |longer|
      ensures longer[i] != longer[j]
    {
      assert longer[i] in order;
    }
  }

  lemma IdsShorter(order: seq<int>)
    requires |order| > 0
    ensures Ids(order) == Ids(order[..|order| - 1]) + {order[|order| - 1]}
  {
    assert order == order[..|order| - 1] + [order[|order| - 1]];
  }

  lemma PartialShorter<S, I, O>(m: Model<S, I, O>, h: seq<Entry<I, O>>, n: nat, order: seq<int>)
    requires WellFormed(h, n) && Partial(m, h, n, order) && |order| > 0
    ensures var last := |order| - 1;
            && Partial(m, h, n, order[..last]) && Minimal(h, n, Ids(order[..last]), order[last])
            && StepOf(m, h, n, Perform(m, h, n, order[..last]).value, order[last]).0
            && Perform(m, h, n, order).value == StepOf(m, h, n, Perform(m, h, n, order[..last]).value, order[last]).1
  {
    var shorter := order[..|order| - 1];
    forall i | 0 <= i < |shorter|
      ensures Minimal(h, n, Ids(shorter[..i]), shorter[i])
    {
      assert shorter[..i] == order[..i];
    }
  }

  lemma {:induction false} OrderSize(order: seq<int>, n: nat)
    requires IsOrder(order, n)
    ensures |Ids(order)| == |order|
  {
    if |order| > 0 {
      var shorter := order[..|order| - 1];
      OrderSize(shorter, n);
      IdsShorter(order);
    }
  }

  /** A linearization is a partial linearization of all n operations. */
  lemma CompletePartial<S, I, O>(m: Model<S, I, O>, h: seq<Entry<I, O>>, n: nat, order: seq<int>)
    requires WellFormed(h, n)
    ensures Linearization(m, h, n, order) <==> |order| == n && Partial(m, h, n, order)
  {
    if |order| == n && IsOrder(order, n) {
      OrderSize(order, n);
      SubsetSize(Ids(order), Range(n));
      if Linearization(m, h, n, order) {
        forall i | 0 <= i < n
          ensures Minimal(h, n, Ids(order[..i]), order[i])
        {
          RealTimeMinimal(h, n, order, i);
        }
      }
      if Partial(m, h, n, order) {
        forall i, j | 0 <= i < j < n
          ensures !Before(h, n, order[j], order[i])
        {
          assert Minimal(h, n, Ids(order[..i]), order[i]);
          assert order[j] !in order[..i];
        }
      }
    }
  }

  lemma NotBeforeItself<I, O>(h: seq<Entry<I, O>>, n: nat, x: int)
    requires WellFormed(h, n) && 0 <= x < n
    ensures !Before(h, n, x, x)
  {
    assert IsOperation(h, x, CallAt(h, n, x), ReturnAt(h, n, x));
  }

  lemma RealTimeMinimal<I, O>(h: seq<Entry<I, O>>, n: nat, order: seq<int>, i: int)
    requires WellFormed(h, n) && IsOrder(order, n) && RealTime(h, n, order) && 0 <= i < |order| && Ids(order) == Range(n)
    ensures Minimal(h, n, Ids(order[..i]), order[i])
  {
    forall x | 0 <= x < n && Before(h, n, x, order[i])
      ensures x in order[..i]
    {
      NotBeforeItself(h, n, x);
      assert x in Ids(order);
      var j :| 0 <= j < |order| && order[j] == x;
      assert order[..i][j] == x;
    }
  }

  // ---------------------------------------------------------------------------------------------
  // The search space of a history
  // ---------------------------------------------------------------------------------------------

  ghost predicate Accepts<S, I, O>(m: Model<S, I, O>, h: seq<Entry<I, O>>, n: nat, c: Config<S>, id: int)
    requires WellFormed(h, n)
  {
    Minimal(h, n, c.done, id) && StepOf(m, h, n, c.state, id).0
  }

  ghost function NextOf<S, I, O>(m: Model<S, I, O>, h: seq<Entry<I, O>>, n: nat, c: Config<S>, id: int): Option<Config<S>>
    requires WellFormed(h, n)
  {
    if Accepts(m, h, n, c, id) then Some(Config(c.done + {id}, StepOf(m, h, n, c.state, id).1)) else None
  }

  ghost function SpaceOf<S(!new), I, O>(m: Model<S, I, O>, h: seq<Entry<I, O>>, n: nat): (sp: Space<S>)
    requires WellFormed(h, n)
    ensures sp.Proper()
  {
    Space(Config({}, m.init), (c: Config<S>, id: int) => NextOf(m, h, n, c, id), n)
  }

  /** The paths of the space are exactly the partial linearizations. */
  lemma {:induction false} PathsArePartial<S(!new), I, O>(m: Model<S, I, O>, h: seq<Entry<I, O>>, n: nat, order: seq<int>)
    requires WellFormed(h, n)
    ensures SpaceOf(m, h, n).Follow(order).Some? <==> Partial(m, h, n, order)
    ensures Partial(m, h, n, order) ==>
              SpaceOf(m, h, n).Follow(order).value == Config(Ids(order), Perform(m, h, n, order).value)
  {
    var sp := SpaceOf(m, h, n);
    if |order| == 0 {
      assert Ids(order) == {};
    } else {
      var shorter, id := order[..|order| - 1], order[|order| - 1];
      PathsArePartial(m, h, n, shorter);
      assert shorter + [id] == order;
      IdsShorter(order);
      if Partial(m, h, n, order) {
        PartialShorter(m, h, n, order);
      }
      if sp.Follow(order).Some? {
        PartialExtends(m, h, n, shorter, id);
      }
    }
  }
}
