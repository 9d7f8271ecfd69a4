/** From operations with call and return times, or from events with arbitrary ids, to the histories that the
    checker searches. */
module PorcupineEntries {
  import opened PorcupineSearch
  import opened PorcupineHistory

  datatype Operation<+I, +O> = Operation(input: I, call: int, output: O, ret: int)

  /** Every operation returns after it is called. */
  ghost predicate Lasting<I, O>(ops: seq<Operation<I, O>>)
  {
    forall i :: 0 <= i < |ops| ==> ops[i].call < ops[i].ret
  }

  /** No operation returns at the very time when another is called. */
  ghost predicate Untied<I, O>(ops: seq<Operation<I, O>>)
  {
    forall i, j :: 0 <= i < |ops| && 0 <= j < |ops| ==> ops[i].ret != ops[j].call
  }

  /** The same operations with a call a little after any return of the same time. */
  function Parted<I, O>(ops: seq<Operation<I, O>>): seq<Operation<I, O>>
  {
    seq(|ops|, i requires 0 <= i < |ops| => Operation(ops[i].input, 2 * ops[i].call + 1, ops[i].output, 2 * ops[i].ret))
  }

  // ---------------------------------------------------------------------------------------------
  // Linearizability by timestamps
  // ---------------------------------------------------------------------------------------------

  ghost function Run<S, I, O>(m: Model<S, I, O>, ops: seq<Operation<I, O>>, order: seq<int>): Option<S>
    requires forall i :: 0 <= i < |order| ==> 0 <= order[i] < |ops|
  {
    if |order| == 0 then Some(m.init) else
    match Run(m, ops, order[..|order| - 1])
    case None => None
    case Some(state) =>
      var op := ops[order[|order| - 1]];
      var (ok, state') := m.step(state, op.input, op.output);
      if ok then Some(state') else None
  }

  /** Operation x returned before y was called. */
  ghost predicate Earlier<I, O>(ops: seq<Operation<I, O>>, x: int, y: int)
    requires 0 <= x < |ops| && 0 <= y < |ops|
  {
    ops[x].ret < ops[y].call
  }

  ghost predicate InTime<I, O>(ops: seq<Operation<I, O>>, order: seq<int>)
    requires forall i :: 0 <= i < |order| ==> 0 <= order[i] < |ops|
  {
    forall i, j :: 0 <= i < j < |order| ==> !Earlier(ops, order[j], order[i])
  }

  ghost predicate Linearizes<S, I, O>(m: Model<S, I, O>, ops: seq<Operation<I, O>>, order: seq<int>)
  {
    |order| == |ops| && IsOrder(order, |ops|) && Run(m, ops, order).Some? && InTime(ops, order)
  }

  /** Some order of all operations respects real time and is accepted by the model. */
  ghost predicate LinearizableOps<S, I, O>(m: Model<S, I, O>, ops: seq<Operation<I, O>>)
  {
    exists order :: Linearizes(m, ops, order)
  }

  // ---------------------------------------------------------------------------------------------
  // makeEntries
  // ---------------------------------------------------------------------------------------------

  datatype Timed<+I, +O> = Timed(entry: Entry<I, O>, time: int)

  ghost predicate SortedByTime<I, O>(s: seq<Timed<I, O>>)
  {
    forall i, j :: 0 <= i < j < |s| ==> s[i].time <= s[j].time
  }

  /** s is a rearrangement of t: s[i] is t[perm[i]]. */
  ghost predicate Rearranges<T>(s: seq<T>, t: seq<T>, perm: seq<int>)
  {
    |s| == |t| == |perm| && IsOrder(perm, |t|) && forall i :: 0 <= i < |s| ==> s[i] == t[perm[i]]
  }

  lemma {:induction false} Reached(perm: seq<int>, n: nat, p: int) returns (i: int)
    requires IsOrder(perm, n) && |perm| == n && 0 <= p < n
    ensures 0 <= i < n && perm[i] == p
  {
    OrderSize(perm, n);
    SubsetSize(Ids(perm), Range(n));
    assert p in Ids(perm);
    i :| 0 <= i < n && perm[i] == p;
  }

  lemma InsertSorted<I, O>(s: seq<Timed<I, O>>, e: Timed<I, O>, i: nat)
    requires SortedByTime(s) && i <= |s|
    requires (i > 0 ==> s[i - 1].time <= e.time) && forall j :: i <= j < |s| ==> s[j].time > e.time
    ensures SortedByTime(s[..i] + [e] + s[i..])
  {
  }

  lemma InsertRearranges<T>(s: seq<T>, t: seq<T>, perm: seq<int>, k: nat, i: nat)
    requires k < |t| && Rearranges(s, t[..k], perm) && i <= k
    ensures Rearranges(s[..i] + [t[k]] + s[i..], t[..k + 1], perm[..i] + [k] + perm[i..])
  {
    var perm' := perm[..i] + [k] + perm[i..];
    forall a, b | 0 <= a < b < |perm'|
      ensures perm'[a] != perm'[b]
    {
      assert perm'[a] == if a < i then perm[a] else if a == i then k else perm[a - 1];
      assert perm'[b] == if b < i then perm[b] else if b == i then k else perm[b - 1];
    }
  }

  method SortByTime<I, O>(t: seq<Timed<I, O>>) returns (s: seq<Timed<I, O>>, ghost perm: seq<int>)
    ensures SortedByTime(s) && Rearranges(s, t, perm)
  {
    s, perm := [], [];
    for k := 0 to |t|
      invariant SortedByTime(s) && Rearranges(s, t[..k], perm)
    {
      var i := |s|;
      while i > 0 && s[i - 1].time > t[k].time
        invariant 0 <= i <= |s|
        invariant forall j :: i <= j < |s| ==> s[j].time > t[k].time
      {
        i := i - 1;
      }
      InsertSorted(s, t[k], i);
      InsertRearranges(s, t, perm, k, i);
      s, perm := s[..i] + [t[k]] + s[i..], perm[..i] + [k] + perm[i..];
    }
    assert t[..|t|] == t;
  }

  ghost predicate CallThenReturn<I, O>(t: seq<Timed<I, O>>, ops: seq<Operation<I, O>>, id: int)
  {
    && 0 <= id < |ops| && |t| > 2 * id + 1
    && t[2 * id] == Timed(CallEntry(id, ops[id].input), ops[id].call)
    && t[2 * id + 1] == Timed(ReturnEntry(id, ops[id].output), ops[id].ret)
  }

  /** The history says what the operations say: inputs, outputs, and, up to ties, who returned before whom was called. */
  ghost predicate Faithful<I, O>(h: seq<Entry<I, O>>, ops: seq<Operation<I, O>>)
  {
    && WellFormed(h, |ops|)
    && (forall id :: 0 <= id < |ops| ==> Carries(h, ops, id))
    && (forall x, y :: 0 <= x < |ops| && 0 <= y < |ops| ==> Sorted(h, ops, x, y))
  }

  /** Who returned earlier comes before; at equal times either may come first. */
  ghost predicate Sorted<I, O>(h: seq<Entry<I, O>>, ops: seq<Operation<I, O>>, x: int, y: int)
    requires WellFormed(h, |ops|) && 0 <= x < |ops| && 0 <= y < |ops|
  {
    && (Earlier(ops, x, y) ==> Before(h, |ops|, x, y))
    && (Before(h, |ops|, x, y) ==> Earlier(Parted(ops), x, y))
  }

  ghost predicate Carries<I, O>(h: seq<Entry<I, O>>, ops: seq<Operation<I, O>>, id: int)
    requires WellFormed(h, |ops|) && 0 <= id < |ops|
  {
    h[CallAt(h, |ops|, id)].input == ops[id].input && h[ReturnAt(h, |ops|, id)].output == ops[id].output
  }

  method MakeEntries<I, O>(ops: seq<Operation<I, O>>) returns (h: seq<Entry<I, O>>)
    requires Lasting(ops)
    ensures Faithful(h, ops)
  {
    var t: seq<Timed<I, O>> := [];
    for id := 0 to |ops|
      invariant |t| == 2 * id && forall j :: 0 <= j < id ==> CallThenReturn(t, ops, j)
    {
      ghost var before := t;
      t := t + [Timed(CallEntry(id, ops[id].input), ops[id].call)];
      t := t + [Timed(ReturnEntry(id, ops[id].output), ops[id].ret)];
      forall j | 0 <= j <= id
        ensures CallThenReturn(t, ops, j)
      {
        if j < id { assert CallThenReturn(before, ops, j); }
      }
    }
    var s, perm := SortByTime(t);
    h := seq(|s|, i requires 0 <= i < |s| => s[i].entry);
    SortedFaithful(ops, t, s, perm, h);
  }

  lemma ByTime<I, O>(s: seq<Timed<I, O>>, i: nat, j: nat)
    requires SortedByTime(s) && i < |s| && j < |s| && s[i].time < s[j].time
    ensures i < j
  {
  }

  /** Where the two entries of an operation end up. */
  lemma Placed<I, O>(ops: seq<Operation<I, O>>, t: seq<Timed<I, O>>, s: seq<Timed<I, O>>, perm: seq<int>, id: int)
    returns (c: int, r: int)
    requires Lasting(ops) && |t| == 2 * |ops| && forall j :: 0 <= j < |ops| ==> CallThenReturn(t, ops, j)
    requires SortedByTime(s) && Rearranges(s, t, perm) && 0 <= id < |ops|
    ensures 0 <= c < r < |s| && perm[c] == 2 * id && perm[r] == 2 * id + 1
    ensures s[c] == Timed(CallEntry(id, ops[id].input), ops[id].call)
    ensures s[r] == Timed(ReturnEntry(id, ops[id].output), ops[id].ret)
  {
    assert CallThenReturn(t, ops, id);
    c := Reached(perm, |t|, 2 * id);
    r := Reached(perm, |t|, 2 * id + 1);
    ByTime(s, c, r);
  }

  lemma SortedWellFormed<I, O>(ops: seq<Operation<I, O>>, t: seq<Timed<I, O>>, s: seq<Timed<I, O>>, perm: seq<int>, h: seq<Entry<I, O>>)
    requires Lasting(ops) && |t| == 2 * |ops| && forall j :: 0 <= j < |ops| ==> CallThenReturn(t, ops, j)
    requires SortedByTime(s) && Rearranges(s, t, perm) && |h| == |s| && forall i :: 0 <= i < |h| ==> h[i] == s[i].entry
    ensures WellFormed(h, |ops|)
  {
    forall i | 0 <= i < |h|
      ensures 0 <= h[i].id < |ops| && h[i].id == perm[i] / 2 && h[i].CallEntry? == (perm[i] % 2 == 0)
    {
      assert CallThenReturn(t, ops, perm[i] / 2);
    }
    forall id | 0 <= id < |ops|
      ensures Completes(h, id)
    {
      var c, r := Placed(ops, t, s, perm, id);
      assert IsOperation(h, id, c, r);
    }
    forall i, j | 0 <= i < j < |h| && h[i].id == h[j].id
      ensures h[i].CallEntry? && h[j].ReturnEntry?
    {
      var c, r := Placed(ops, t, s, perm, h[i].id);
      assert (i == c || i == r) && (j == c || j == r);
    }
  }

  lemma SortedFaithful<I, O>(ops: seq<Operation<I, O>>, t: seq<Timed<I, O>>, s: seq<Timed<I, O>>, perm: seq<int>, h: seq<Entry<I, O>>)
    requires Lasting(ops) && |t| == 2 * |ops| && forall j :: 0 <= j < |ops| ==> CallThenReturn(t, ops, j)
    requires SortedByTime(s) && Rearranges(s, t, perm) && |h| == |s| && forall i :: 0 <= i < |h| ==> h[i] == s[i].entry
    ensures Faithful(h, ops)
  {
    var n := |ops|;
    SortedWellFormed(ops, t, s, perm, h);
    forall id | 0 <= id < n
      ensures Carries(h, ops, id)
      ensures s[CallAt(h, n, id)].time == ops[id].call && s[ReturnAt(h, n, id)].time == ops[id].ret
    {
      var c, r := Placed(ops, t, s, perm, id);
      PositionsUnique(h, n, c);
      PositionsUnique(h, n, r);
    }
    forall x, y | 0 <= x < n && 0 <= y < n
      ensures Sorted(h, ops, x, y)
    {
      var r, c := ReturnAt(h, n, x), CallAt(h, n, y);
      assert IsOperation(h, x, CallAt(h, n, x), r) && IsOperation(h, y, c, ReturnAt(h, n, y));
      if Earlier(ops, x, y) { ByTime(s, r, c); }
    }
  }

  lemma {:induction false} RunIsPerform<S, I, O>(m: Model<S, I, O>, ops: seq<Operation<I, O>>, h: seq<Entry<I, O>>, order: seq<int>)
    requires Faithful(h, ops) && IsOrder(order, |ops|)
    ensures Run(m, ops, order) == Perform(m, h, |ops|, order)
  {
    if |order| > 0 {
      RunIsPerform(m, ops, h, order[..|order| - 1]);
      assert Carries(h, ops, order[|order| - 1]);
    }
  }

  lemma {:induction false} PartedRuns<S, I, O>(m: Model<S, I, O>, ops: seq<Operation<I, O>>, order: seq<int>)
    requires IsOrder(order, |ops|)
    ensures Run(m, Parted(ops), order) == Run(m, ops, order)
  {
    if |order| > 0 { PartedRuns(m, ops, order[..|order| - 1]); }
  }

  /** Whatever sort it is, the sorted history is linearizable only if the operations are, and it is if they are with ties
      read as one after the other. */
  lemma EntriesSame<S, I, O>(m: Model<S, I, O>, ops: seq<Operation<I, O>>, h: seq<Entry<I, O>>)
    requires Faithful(h, ops)
    ensures Linearizable(m, h, |ops|) ==> LinearizableOps(m, ops)
    ensures LinearizableOps(m, Parted(ops)) ==> Linearizable(m, h, |ops|)
  {
    forall order | |order| == |ops| && IsOrder(order, |ops|)
      ensures Linearization(m, h, |ops|, order) ==> Linearizes(m, ops, order)
      ensures Linearizes(m, Parted(ops), order) ==> Linearization(m, h, |ops|, order)
    {
      RunIsPerform(m, ops, h, order);
      PartedRuns(m, ops, order);
      forall i, j | 0 <= i < j < |order|
        ensures Sorted(h, ops, order[j], order[i])
      {
      }
    }
    if Linearizable(m, h, |ops|) {
      var order :| Linearization(m, h, |ops|, order);
      assert Linearizes(m, ops, order);
    }
    if LinearizableOps(m, Parted(ops)) {
      var order :| Linearizes(m, Parted(ops), order);
      assert Linearization(m, h, |ops|, order);
    }
  }

  /** Without a tie between a return and a call both readings are the same, so the verdict is exact. */
  lemma UntiedSame<S, I, O>(m: Model<S, I, O>, ops: seq<Operation<I, O>>)
    requires Untied(ops)
    ensures LinearizableOps(m, Parted(ops)) <==> LinearizableOps(m, ops)
  {
    forall order | |order| == |ops| && IsOrder(order, |ops|)
      ensures Linearizes(m, Parted(ops), order) <==> Linearizes(m, ops, order)
    {
      PartedRuns(m, ops, order);
      forall i, j | 0 <= i < j < |order|
        ensures Earlier(Parted(ops), order[j], order[i]) <==> Earlier(ops, order[j], order[i])
      {
      }
    }
    if LinearizableOps(m, Parted(ops)) {
      var order :| Linearizes(m, Parted(ops), order);
      assert Linearizes(m, ops, order);
    }
    if LinearizableOps(m, ops) {
      var order :| Linearizes(m, ops, order);
      assert Linearizes(m, Parted(ops), order);
    }
  }

  // ---------------------------------------------------------------------------------------------
  // renumber
  // ---------------------------------------------------------------------------------------------

  /** Every id that occurs is called once and then returns once. */
  ghost predicate Paired<I, O>(events: seq<Entry<I, O>>)
  {
    && (forall i :: 0 <= i < |events| ==> Completes(events, events[i].id))
    && (forall i, j :: 0 <= i < j < |events| && events[i].id == events[j].id ==> events[i].CallEntry? && events[j].ReturnEntry?)
  }

  function WithId<I, O>(e: Entry<I, O>, id: int): Entry<I, O>
  {
    match e
    case CallEntry(_, input) => CallEntry(id, input)
    case ReturnEntry(_, output) => ReturnEntry(id, output)
  }

  /** The same events under other ids, equal where they were equal. */
  ghost predicate Renames<I, O>(h: seq<Entry<I, O>>, events: seq<Entry<I, O>>)
  {
    && |h| == |events|
    && (forall i :: 0 <= i < |h| ==> h[i] == WithId(events[i], h[i].id))
    && (forall i, j :: 0 <= i < |h| && 0 <= j < |h| ==> (h[i].id == h[j].id <==> events[i].id == events[j].id))
  }

  ghost predicate Numbered<I, O>(h: seq<Entry<I, O>>, n: nat)
  {
    && (forall i :: 0 <= i < |h| ==> 0 <= h[i].id < n)
    && (forall id :: 0 <= id < n ==> Occurs(h, id))
  }

  ghost predicate Occurs<I, O>(h: seq<Entry<I, O>>, id: int)
  {
    exists i :: 0 <= i < |h| && h[i].id == id
  }

  /** The table holds exactly the ids met so far, each with its number. */
  ghost predicate TableOf<I, O>(m: map<int, int>, events: seq<Entry<I, O>>, h: seq<Entry<I, O>>)
    requires |events| == |h|
  {
    && (forall j :: 0 <= j < |h| ==> events[j].id in m && m[events[j].id] == h[j].id)
    && (forall id :: id in m ==> Occurs(events, id))
  }

  /** Numbers the ids 0, 1, 2, ... in the order in which they first occur. */
  method Renumber<I, O>(events: seq<Entry<I, O>>) returns (h: seq<Entry<I, O>>, n: nat)
    ensures Renames(h, events) && Numbered(h, n)
    ensures FirstInOrder(h)
  {
    h, n := [], 0;
    var m: map<int, int> := map[];
    for i := 0 to |events|
      invariant |h| == i && Renames(h, events[..i]) && Numbered(h, n)
      invariant TableOf(m, events[..i], h) && FirstInOrder(h)
    {
      var v := events[i];
      assert events[..i + 1] == events[..i] + [v];
      if v.id in m {
        NumberedOn(m, events[..i], h, v, n);
        h := h + [WithId(v, m[v.id])];
      } else {
        NumberedOn(m, events[..i], h, v, n);
        h := h + [WithId(v, n)];
        m := m[v.id := n];
        n := n + 1;
      }
    }
    assert events[..|events|] == events;
  }

  /** A number larger than a later one comes after that number's first use. */
  ghost predicate FirstInOrder<I, O>(h: seq<Entry<I, O>>)
  {
    forall j, k :: 0 <= j < k < |h| && h[j].id > h[k].id ==> Occurs(h[..j], h[k].id)
  }

  lemma NumberedOn<I, O>(m: map<int, int>, events: seq<Entry<I, O>>, h: seq<Entry<I, O>>, v: Entry<I, O>, n: nat)
    requires Renames(h, events) && Numbered(h, n) && TableOf(m, events, h) && FirstInOrder(h)
    ensures var id := if v.id in m then m[v.id] else n;
            var h' := h + [WithId(v, id)];
            && Renames(h', events + [v]) && Numbered(h', if v.id in m then n else n + 1)
            && TableOf(m[v.id := id], events + [v], h') && FirstInOrder(h')
  {
    var id := if v.id in m then m[v.id] else n;
    var e, n' := WithId(v, id), if v.id in m then n else n + 1;
    KnownId(m, events, h, v.id);
    NumberedLonger(h, e, n');
    OccursLonger(events, v);
    forall j, k | 0 <= j < k < |h + [e]| && (h + [e])[j].id > (h + [e])[k].id
      ensures Occurs((h + [e])[..j], (h + [e])[k].id)
    {
      assert (h + [e])[..j] == h[..j];
      if k == |h| { FirstBefore(h, n, j, id); }
    }
  }

  lemma KnownId<I, O>(m: map<int, int>, events: seq<Entry<I, O>>, h: seq<Entry<I, O>>, id: int)
    requires Renames(h, events) && TableOf(m, events, h)
    ensures id in m <==> Occurs(events, id)
    ensures forall j :: 0 <= j < |h| ==> (events[j].id == id <==> id in m && h[j].id == m[id])
  {
    if id in m {
      var i :| 0 <= i < |events| && events[i].id == id;
      assert h[i].id == m[id];
    }
    if Occurs(events, id) {
      var i :| 0 <= i < |events| && events[i].id == id;
      assert id in m;
    }
  }

  lemma OccursLonger<I, O>(events: seq<Entry<I, O>>, v: Entry<I, O>)
    ensures forall id :: Occurs(events, id) || id == v.id ==> Occurs(events + [v], id)
  {
    forall id | Occurs(events, id) || id == v.id
      ensures Occurs(events + [v], id)
    {
      if id == v.id {
        assert (events + [v])[|events|].id == id;
      } else {
        var i :| 0 <= i < |events| && events[i].id == id;
        assert (events + [v])[i].id == id;
      }
    }
  }

  lemma FirstBefore<I, O>(h: seq<Entry<I, O>>, n: nat, j: int, id: int)
    requires FirstInOrder(h) && Numbered(h, n) && 0 <= j < |h| && 0 <= id < h[j].id
    ensures Occurs(h[..j], id)
  {
    assert Occurs(h, id);
    var i :| 0 <= i < |h| && h[i].id == id;
    if i < j { assert h[..j][i].id == id; }
  }

  lemma NumberedLonger<I, O>(h: seq<Entry<I, O>>, e: Entry<I, O>, n: nat)
    requires forall i :: 0 <= i < |h| ==> 0 <= h[i].id < n
    requires 0 <= e.id < n && forall id :: 0 <= id < n && id != e.id ==> Occurs(h, id)
    ensures Numbered(h + [e], n)
  {
    forall id | 0 <= id < n
      ensures Occurs(h + [e], id)
    {
      if id == e.id {
        assert (h + [e])[|h|].id == id;
      } else {
        assert Occurs(h, id);
        var i :| 0 <= i < |h| && h[i].id == id;
        assert (h + [e])[i].id == id;
      }
    }
  }

  /** Renumbered events are a history that the checker accepts. */
  lemma RenumberedWellFormed<I, O>(events: seq<Entry<I, O>>, h: seq<Entry<I, O>>, n: nat)
    requires Paired(events) && Renames(h, events) && Numbered(h, n)
    ensures WellFormed(h, n)
  {
    forall id | 0 <= id < n
      ensures Completes(h, id)
    {
      assert Occurs(h, id);
      var i :| 0 <= i < |h| && h[i].id == id;
      assert Completes(events, events[i].id);
      var c, r :| IsOperation(events, events[i].id, c, r);
      assert IsOperation(h, id, c, r);
    }
    TwicePerId(h, n);
  }

  /** One call and one return for each of n ids: 2 * n entries. */
  lemma TwicePerId<I, O>(h: seq<Entry<I, O>>, n: nat)
    requires forall i :: 0 <= i < |h| ==> 0 <= h[i].id < n
    requires forall id :: 0 <= id < n ==> Completes(h, id)
    requires forall i, j :: 0 <= i < j < |h| && h[i].id == h[j].id ==> h[i].CallEntry? && h[j].ReturnEntry?
    ensures |h| == 2 * n
  {
    var places := Places(h, n, n);
    forall i | 0 <= i < |h|
      ensures i in places
    {
      var id := h[i].id;
      assert IsOperation(h, id, places[2 * id], places[2 * id + 1]);
    }
    OrderSize(places, |h|);
    assert Ids(places) == Range(|h|);
  }

  /** The call and return positions of the first k ids. */
  lemma {:induction false} Places<I, O>(h: seq<Entry<I, O>>, n: nat, k: nat) returns (places: seq<int>)
    requires k <= n && forall id :: 0 <= id < n ==> Completes(h, id)
    ensures |places| == 2 * k && IsOrder(places, |h|)
    ensures forall id :: 0 <= id < k ==> IsOperation(h, id, places[2 * id], places[2 * id + 1])
    ensures forall i :: 0 <= i < |places| ==> h[places[i]].id == i / 2
    decreases k
  {
    if k == 0 {
      places := [];
    } else {
      places := Places(h, n, k - 1);
      assert Completes(h, k - 1);
      var c, r :| IsOperation(h, k - 1, c, r);
      places := places + [c, r];
    }
  }
}
