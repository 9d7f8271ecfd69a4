/** The linearizability checker: the search over the linked history, with its bitset, undo stack and cache,
    proved against the declarative definition of linearizability. */
module PorcupineChecker {
  import opened PorcupineSearch
  import opened PorcupineHistory
  import opened PorcupineBitset
  import opened PorcupineList

  // ---------------------------------------------------------------------------------------------
  // The cache
  // ---------------------------------------------------------------------------------------------

  /** A cached configuration; its bitset is a copy that is never changed again. */
  datatype CacheEntry<+S> = CacheEntry(linearized: seq<Word>, state: S)

  type Cache<S> = map<Word, seq<CacheEntry<S>>>

  /** Every bucket holds bitsets of one length that hash to its key. */
  ghost predicate Hashed<S>(cache: Cache<S>, words: nat)
  {
    forall k, i :: k in cache && 0 <= i < |cache[k]| ==>
      |cache[k][i].linearized| == words && HashOf(cache[k][i].linearized) == k
  }

  ghost predicate Cached<S>(cache: Cache<S>, c: Config<S>)
  {
    exists k, i :: k in cache && 0 <= i < |cache[k]| && Holds(cache[k][i], c)
  }

  ghost predicate Holds<S>(e: CacheEntry<S>, c: Config<S>)
  {
    Members(e.linearized) == c.done && e.state == c.state
  }

  /** The cache stands for exactly the set of configurations put in. */
  ghost predicate Stands<S(!new)>(cache: Cache<S>, words: nat, seen: set<Config<S>>)
  {
    Hashed(cache, words) && forall c :: Cached(cache, c) <==> c in seen
  }

  function Bucket<S>(cache: Cache<S>, hash: Word): seq<CacheEntry<S>>
  {
    if hash in cache then cache[hash] else []
  }

  ghost predicate InBucket<S>(bucket: seq<CacheEntry<S>>, c: Config<S>)
  {
    exists i :: 0 <= i < |bucket| && Holds(bucket[i], c)
  }

  /** Whatever stands for the set of this bitset is in the bucket of this bitset's hash, because equal sets
      hash equally. */
  lemma InOneBucket<S(!new)>(cache: Cache<S>, linearized: seq<Word>, state: S, seen: set<Config<S>>)
    requires Stands(cache, |linearized|, seen)
    ensures var c := Config(Members(linearized), state);
            c in seen <==> InBucket(Bucket(cache, HashOf(linearized)), c)
  {
    var c, hash := Config(Members(linearized), state), HashOf(linearized);
    if c in seen {
      assert Cached(cache, c);
      var k, i :| k in cache && 0 <= i < |cache[k]| && Holds(cache[k][i], c);
      EqualSetsHashEqually(linearized, cache[k][i].linearized);
      assert Holds(Bucket(cache, hash)[i], c);
    }
    if InBucket(Bucket(cache, hash), c) {
      var i :| 0 <= i < |Bucket(cache, hash)| && Holds(Bucket(cache, hash)[i], c);
      assert Holds(cache[hash][i], c);
      assert Cached(cache, c);
    }
  }

  /** Looks only in the bucket of the bitset's hash. */
  method CacheContains<S(==, !new)>(cache: Cache<S>, linearized: array<Word>, state: S, ghost seen: set<Config<S>>)
    returns (found: bool)
    requires Stands(cache, linearized.Length, seen)
    ensures found <==> Config(Members(linearized[..]), state) in seen
  {
    hide HashOf, Members;
    ghost var c := Config(Members(linearized[..]), state);
    var hash := Hash(linearized);
    var bucket := Bucket(cache, hash);
    InOneBucket(cache, linearized[..], state, seen);
    for i := 0 to |bucket|
      invariant forall j :: 0 <= j < i ==> !Holds(bucket[j], c)
    {
      var same := Equals(linearized, bucket[i].linearized);
      SameMembers(linearized[..], bucket[i].linearized);
      if same && state == bucket[i].state {
        assert Holds(bucket[i], c);
        return true;
      }
    }
    return false;
  }

  function Insert<S>(cache: Cache<S>, e: CacheEntry<S>): Cache<S>
  {
    var hash := HashOf(e.linearized);
    cache[hash := Bucket(cache, hash) + [e]]
  }

  lemma InsertStands<S(!new)>(cache: Cache<S>, words: nat, seen: set<Config<S>>, e: CacheEntry<S>, c: Config<S>)
    requires Stands(cache, words, seen) && |e.linearized| == words && Holds(e, c)
    ensures Stands(Insert(cache, e), words, seen + {c})
  {
    var cache', hash := Insert(cache, e), HashOf(e.linearized);
    var old' := Bucket(cache, hash);
    forall d
      ensures Cached(cache', d) <==> d in seen + {c}
    {
      if Cached(cache', d) {
        var k, i :| k in cache' && 0 <= i < |cache'[k]| && Holds(cache'[k][i], d);
        if k != hash || i < |old'| {
          assert Holds(cache[k][i], d);
          assert Cached(cache, d);
        }
      }
      if d in seen {
        var k, i :| k in cache && 0 <= i < |cache[k]| && Holds(cache[k][i], d);
        assert k in cache' && cache'[k][i] == cache[k][i];
      }
      if d == c {
        assert Holds(cache'[hash][|old'|], d);
      }
    }
  }

  // ---------------------------------------------------------------------------------------------
  // The list under the search
  // ---------------------------------------------------------------------------------------------

  ghost predicate RemainsAt<I, O>(h: seq<Entry<I, O>>, done: set<int>, p: int)
  {
    0 <= p <= |h| && (p == 0 || h[p - 1].id !in done)
  }

  /** The positions of the head and of every entry of an operation that is not done. */
  ghost function Remaining<I, O>(h: seq<Entry<I, O>>, done: set<int>): set<int>
  {
    set p | 0 <= p <= |h| && RemainsAt(h, done, p)
  }

  /** Positions in the list: the head comes first. */
  ghost function CallPos<I, O>(h: seq<Entry<I, O>>, n: nat, id: int): int
    requires WellFormed(h, n)
  {
    if 0 <= id < n then CallAt(h, n, id) + 1 else 0
  }

  ghost function ReturnPos<I, O>(h: seq<Entry<I, O>>, n: nat, id: int): int
    requires WellFormed(h, n)
  {
    if 0 <= id < n then ReturnAt(h, n, id) + 1 else 0
  }

  lemma RemainingWithout<I, O>(h: seq<Entry<I, O>>, n: nat, done: set<int>, id: int)
    requires WellFormed(h, n) && 0 <= id < n && id !in done
    ensures var a, b := CallPos(h, n, id), ReturnPos(h, n, id);
            && Remaining(h, done + {id}) == Remaining(h, done) - {a} - {b}
            && 0 < a < b && a in Remaining(h, done) && b in Remaining(h, done)
  {
    var a, b := CallPos(h, n, id), ReturnPos(h, n, id);
    assert IsOperation(h, id, a - 1, b - 1);
    forall p
      ensures p in Remaining(h, done + {id}) <==> p in Remaining(h, done) - {a} - {b}
    {
      if 0 < p <= |h| { PositionsUnique(h, n, p - 1); }
    }
  }

  /** The nodes of the whole history behind its head node. */
  ghost predicate Nodes<I(!new), O(!new)>(nodes: seq<Node<I, O>>, h: seq<Entry<I, O>>, n: nat)
    requires WellFormed(h, n)
  {
    |nodes| == |h| + 1 && Distinct(nodes) && Layout(nodes[1..], h, n, 0)
  }

  lemma NodeAt<I(!new), O(!new)>(nodes: seq<Node<I, O>>, h: seq<Entry<I, O>>, n: nat, p: int)
    requires WellFormed(h, n) && Nodes(nodes, h, n) && 0 < p <= |h|
    ensures nodes[p].entry == Some(h[p - 1])
    ensures h[p - 1].ReturnEntry? ==> nodes[p].mate == null
    ensures h[p - 1].CallEntry? ==>
              && p == CallPos(h, n, h[p - 1].id) && p < ReturnPos(h, n, h[p - 1].id) <= |h|
              && nodes[p].mate == nodes[ReturnPos(h, n, h[p - 1].id)]
  {
    var rest := nodes[1..];
    assert LayoutAt(rest, h, n, 0, p - 1) && rest[p - 1] == nodes[p];
    PositionsUnique(h, n, p - 1);
    if h[p - 1].CallEntry? {
      var r := ReturnAt(h, n, h[p - 1].id);
      assert rest[r] == nodes[r + 1];
    }
  }

  /** The call and return lifted in the k-th step still remember where they were. */
  ghost predicate LiftedAt<I(!new), O(!new)>(nodes: seq<Node<I, O>>, h: seq<Entry<I, O>>, n: nat, path: seq<int>, k: int)
    requires WellFormed(h, n) && IsOrder(path, n) && 0 <= k < |path| && |nodes| == |h| + 1
    reads nodes
  {
    var before, a, b := Remaining(h, Ids(path[..k])), CallPos(h, n, path[k]), ReturnPos(h, n, path[k]);
    && 0 < a < |nodes| && 0 < b < |nodes|
    && Remembers(nodes, before, a) && Remembers(nodes, before - {a}, b)
  }

  /** The list is the history without the calls and returns on the path, and the way back is intact. */
  ghost predicate Trail<I(!new), O(!new)>(nodes: seq<Node<I, O>>, h: seq<Entry<I, O>>, n: nat, path: seq<int>)
    requires WellFormed(h, n) && IsOrder(path, n)
    reads nodes
  {
    && Nodes(nodes, h, n) && Linked(nodes, Remaining(h, Ids(path)))
    && forall k :: 0 <= k < |path| ==> LiftedAt(nodes, h, n, path, k)
  }

  /** Lifting an operation extends the trail; its nodes and all lifted before keep their pointers. */
  method LiftStep<I(!new), O(!new)>(entry: Node<I, O>, ghost nodes: seq<Node<I, O>>, ghost h: seq<Entry<I, O>>, ghost n: nat,
                                    ghost path: seq<int>, ghost id: int)
    requires WellFormed(h, n) && IsOrder(path, n) && Trail(nodes, h, n, path)
    requires 0 <= id < n && id !in path && entry == nodes[CallPos(h, n, id)]
    modifies nodes
    ensures IsOrder(path + [id], n) && Trail(nodes, h, n, path + [id])
  {
    ghost var linked, a, b := Remaining(h, Ids(path)), CallPos(h, n, id), ReturnPos(h, n, id);
    ghost var path' := path + [id];
    RemainingWithout(h, n, Ids(path), id);
    NodeAt(nodes, h, n, a);
    Lift(entry, nodes, linked, a, b);
    assert Ids(path') == Ids(path) + {id};
    forall k | 0 <= k < |path'|
      ensures LiftedAt(nodes, h, n, path', k)
    {
      if k < |path| {
        assert path'[..k] == path[..k];
        assert old(LiftedAt(nodes, h, n, path, k));
        LiftedOutside(h, n, path, k);
      } else {
        assert path'[..k] == path;
      }
    }
  }

  lemma LiftedOutside<I, O>(h: seq<Entry<I, O>>, n: nat, path: seq<int>, k: int)
    requires WellFormed(h, n) && IsOrder(path, n) && 0 <= k < |path|
    ensures CallPos(h, n, path[k]) !in Remaining(h, Ids(path)) && ReturnPos(h, n, path[k]) !in Remaining(h, Ids(path))
  {
    assert IsOperation(h, path[k], CallAt(h, n, path[k]), ReturnAt(h, n, path[k]));
    assert path[k] in Ids(path);
  }

  /** Unlifting the last operation leads back along the trail. */
  method UnliftStep<I(!new), O(!new)>(entry: Node<I, O>, ghost nodes: seq<Node<I, O>>, ghost h: seq<Entry<I, O>>, ghost n: nat,
                                      ghost path: seq<int>)
    requires WellFormed(h, n) && IsOrder(path, n) && |path| > 0 && Trail(nodes, h, n, path)
    requires entry == nodes[CallPos(h, n, path[|path| - 1])]
    modifies nodes
    ensures Trail(nodes, h, n, path[..|path| - 1])
  {
    ghost var up, id := path[..|path| - 1], path[|path| - 1];
    ghost var linked, a, b := Remaining(h, Ids(up)), CallPos(h, n, id), ReturnPos(h, n, id);
    IdsShorter(path);
    RemainingWithout(h, n, Ids(up), id);
    NodeAt(nodes, h, n, a);
    assert LiftedAt(nodes, h, n, path, |path| - 1);
    Unlift(entry, nodes, linked, a, b);
    forall k | 0 <= k < |up|
      ensures LiftedAt(nodes, h, n, up, k)
    {
      assert up[..k] == path[..k];
      assert old(LiftedAt(nodes, h, n, path, k));
      LiftedOutside(h, n, up, k);
    }
  }

  // ---------------------------------------------------------------------------------------------
  // Where the search stands in the list
  // ---------------------------------------------------------------------------------------------

  ghost function PosOf<I, O>(h: seq<Entry<I, O>>, n: nat): int -> int
    requires WellFormed(h, n)
  {
    id => CallPos(h, n, id)
  }

  /** No return is left in the list before position `at`. */
  ghost predicate OnlyCallsBefore<I, O>(h: seq<Entry<I, O>>, done: set<int>, at: int)
  {
    forall p :: p in Remaining(h, done) && 0 < p < at ==> h[p - 1].CallEntry?
  }

  /** Nothing is left in the list strictly between two positions. */
  ghost predicate Gap<I, O>(h: seq<Entry<I, O>>, done: set<int>, at: int, at': int)
  {
    forall p :: at < p < at' ==> p !in Remaining(h, done)
  }

  lemma CallPosInjective<I, O>(h: seq<Entry<I, O>>, n: nat, x: int, y: int)
    requires WellFormed(h, n) && CallPos(h, n, x) == CallPos(h, n, y) > 0
    ensures x == y
  {
    if 0 <= x < n { assert IsOperation(h, x, CallAt(h, n, x), ReturnAt(h, n, x)); }
    if 0 <= y < n { assert IsOperation(h, y, CallAt(h, n, y), ReturnAt(h, n, y)); }
  }

  /** An operation whose call is in the list before any return may be next. */
  lemma CallIsMinimal<I, O>(h: seq<Entry<I, O>>, n: nat, done: set<int>, at: int)
    requires WellFormed(h, n) && at in Remaining(h, done) && at > 0 && OnlyCallsBefore(h, done, at) && h[at - 1].CallEntry?
    ensures Minimal(h, n, done, h[at - 1].id) && CallPos(h, n, h[at - 1].id) == at
  {
    var id := h[at - 1].id;
    PositionsUnique(h, n, at - 1);
    forall x | 0 <= x < n && Before(h, n, x, id)
      ensures x in done
    {
      var r := ReturnAt(h, n, x);
      assert IsOperation(h, x, CallAt(h, n, x), r);
      assert r + 1 in Remaining(h, done) <==> x !in done;
    }
  }

  /** At the first return in the list, every operation that may be next has its call before it. */
  lemma ReturnBlocks<I, O>(h: seq<Entry<I, O>>, n: nat, done: set<int>, at: int, id: int)
    requires WellFormed(h, n) && at in Remaining(h, done) && at > 0 && h[at - 1].ReturnEntry? && Minimal(h, n, done, id)
    ensures CallPos(h, n, id) < at
  {
    var x := h[at - 1].id;
    PositionsUnique(h, n, at - 1);
    assert RemainsAt(h, done, at);
    if CallPos(h, n, id) >= at {
      assert IsOperation(h, id, CallAt(h, n, id), ReturnAt(h, n, id));
      assert Before(h, n, x, id);
    }
  }

  /** Between neighbours in the list there is nothing that may be next. */
  lemma NothingBetween<S(!new), I, O>(m: Model<S, I, O>, h: seq<Entry<I, O>>, n: nat, seen: set<Config<S>>, c: Config<S>,
                                      at: int, at': int, id: int)
    requires WellFormed(h, n) && at < CallPos(h, n, id) < at' && at >= 0
    requires Gap(h, c.done, at, at')
    ensures SpaceOf(m, h, n).Tried(seen, c, id)
  {
    var p := CallPos(h, n, id);
    assert IsOperation(h, id, p - 1, ReturnAt(h, n, id));
    assert p !in Remaining(h, c.done);
    assert !RemainsAt(h, c.done, p);
  }

  /** The next position in the list after `at`, one past the end if there is none. */
  lemma NextInList<I, O>(h: seq<Entry<I, O>>, done: set<int>, at: int) returns (at': int)
    requires at in Remaining(h, done)
    ensures at < at' <= |h| + 1 && Gap(h, done, at, at')
    ensures if at' <= |h| then Adjacent(Remaining(h, done), at, at') else Last(Remaining(h, done), at)
  {
    at' := Successor(Remaining(h, done), at, |h| + 1);
  }

  /** Skipping the entry at `at`, already tried, to the next in the list. */
  lemma SkipTo<S(!new), I, O>(m: Model<S, I, O>, h: seq<Entry<I, O>>, n: nat, path: seq<int>, seen: set<Config<S>>, at: int, at': int)
    requires WellFormed(h, n)
    requires var sp := SpaceOf(m, h, n);
             && sp.Searching(path, seen, PosOf(h, n), at)
             && at in Remaining(h, sp.Follow(path).value.done) && at > 0 && h[at - 1].CallEntry?
             && sp.Tried(seen, sp.Follow(path).value, h[at - 1].id)
             && Gap(h, sp.Follow(path).value.done, at, at')
    ensures SpaceOf(m, h, n).Searching(path, seen, PosOf(h, n), at')
  {
    var sp := SpaceOf(m, h, n);
    var c := sp.Follow(path).value;
    forall id | at <= PosOf(h, n)(id) < at'
      ensures sp.Tried(seen, c, id)
    {
      if CallPos(h, n, id) == at {
        assert IsOperation(h, id, at - 1, ReturnAt(h, n, id));
      } else {
        NothingBetween(m, h, n, seen, c, at, at', id);
      }
    }
    Skips(sp, path, seen, PosOf(h, n), at, at');
  }

  lemma GapDone<I, O>(h: seq<Entry<I, O>>, n: nat, done: set<int>, at': int, x: int)
    requires WellFormed(h, n) && Gap(h, done, 0, at') && 0 <= x < n && CallPos(h, n, x) < at'
    ensures x in done
  {
    var p := CallPos(h, n, x);
    assert IsOperation(h, x, p - 1, ReturnAt(h, n, x));
    assert p in Remaining(h, done) <==> RemainsAt(h, done, p);
  }

  /** After a step down the search starts over at the front of the list. */
  lemma DescendTo<S(!new), I, O>(m: Model<S, I, O>, h: seq<Entry<I, O>>, n: nat, path: seq<int>, seen: set<Config<S>>, id: int,
                                 c: Config<S>, at': int)
    requires WellFormed(h, n) && 0 <= id < n
    requires var sp := SpaceOf(m, h, n);
             && sp.Searching(path, seen, PosOf(h, n), CallPos(h, n, id))
             && sp.next(sp.Follow(path).value, id).Some? && c == sp.next(sp.Follow(path).value, id).value && c !in seen
             && Gap(h, c.done, 0, at')
    ensures SpaceOf(m, h, n).Searching(path + [id], seen + {c}, PosOf(h, n), at')
  {
    forall x | 0 <= x < n && PosOf(h, n)(x) < at'
      ensures x in c.done
    {
      GapDone(h, n, c.done, at', x);
    }
    Descends(SpaceOf(m, h, n), path, seen, PosOf(h, n), id, at');
  }

  /** At a return everything has been tried. */
  lemma ReturnCloses<S(!new), I, O>(m: Model<S, I, O>, h: seq<Entry<I, O>>, n: nat, path: seq<int>, seen: set<Config<S>>, at: int)
    requires WellFormed(h, n)
    requires var sp := SpaceOf(m, h, n);
             && sp.Searching(path, seen, PosOf(h, n), at)
             && at in Remaining(h, sp.Follow(path).value.done) && at > 0 && h[at - 1].ReturnEntry?
    ensures SpaceOf(m, h, n).Closed(seen, SpaceOf(m, h, n).Follow(path).value)
  {
    var sp := SpaceOf(m, h, n);
    var c := sp.Follow(path).value;
    forall id
      ensures sp.Tried(seen, c, id)
    {
      if sp.next(c, id).Some? {
        ReturnBlocks(h, n, c.done, at, id);
        assert PosOf(h, n)(id) < at;
      }
    }
  }

  /** Undoing the last operation and moving on to the next in the list. */
  lemma ReturnTo<S(!new), I, O>(m: Model<S, I, O>, h: seq<Entry<I, O>>, n: nat, path: seq<int>, seen: set<Config<S>>, at: int, at': int)
    requires WellFormed(h, n) && |path| > 0
    requires var sp := SpaceOf(m, h, n);
             && sp.Searching(path, seen, PosOf(h, n), at) && sp.Closed(seen, sp.Follow(path).value)
             && Partial(m, h, n, path)
             && Gap(h, Ids(path[..|path| - 1]), CallPos(h, n, path[|path| - 1]), at')
    ensures SpaceOf(m, h, n).Searching(path[..|path| - 1], seen, PosOf(h, n), at')
  {
    var sp, up, last := SpaceOf(m, h, n), path[..|path| - 1], path[|path| - 1];
    PartialShorter(m, h, n, path);
    PathsArePartial(m, h, n, up);
    var c := sp.Follow(up).value;
    forall id | PosOf(h, n)(last) <= PosOf(h, n)(id) < at' && id != last
      ensures sp.Tried(seen, c, id)
    {
      assert CallPos(h, n, last) > 0;
      if CallPos(h, n, id) == CallPos(h, n, last) { CallPosInjective(h, n, id, last); }
      NothingBetween(m, h, n, seen, c, CallPos(h, n, last), at', id);
    }
    Returns(sp, path, seen, PosOf(h, n), at, at');
  }

  /** The list before an operation that was minimal holds only calls, and so up to the next in the list. */
  lemma OnlyCallsUpTo<I, O>(h: seq<Entry<I, O>>, n: nat, done: set<int>, id: int, at': int)
    requires WellFormed(h, n) && Minimal(h, n, done, id)
    requires Gap(h, done, CallPos(h, n, id), at')
    ensures OnlyCallsBefore(h, done, at')
  {
    forall p | p in Remaining(h, done) && 0 < p < at'
      ensures h[p - 1].CallEntry?
    {
      PositionsUnique(h, n, p - 1);
      assert IsOperation(h, id, CallAt(h, n, id), ReturnAt(h, n, id));
      assert RemainsAt(h, done, p);
      assert !Before(h, n, h[p - 1].id, id);
    }
  }

  // ---------------------------------------------------------------------------------------------
  // The checker
  // ---------------------------------------------------------------------------------------------

  /** A step to undo: the call that was lifted and the state before it. */
  datatype CallsEntry<I(!new), O(!new), S> = CallsEntry(entry: Node<I, O>, state: S)

  /** The undo stack holds the path: its nodes, and the states along the way. */
  ghost predicate StackOf<S, I(!new), O(!new)>(m: Model<S, I, O>, h: seq<Entry<I, O>>, n: nat, nodes: seq<Node<I, O>>,
                                             calls: seq<CallsEntry<I, O, S>>, path: seq<int>)
    requires WellFormed(h, n) && Partial(m, h, n, path)
  {
    && |calls| == |path| && Nodes(nodes, h, n)
    && forall k :: 0 <= k < |path| ==> StackAt(m, h, n, nodes, calls[k], path, k)
  }

  ghost predicate StackAt<S, I(!new), O(!new)>(m: Model<S, I, O>, h: seq<Entry<I, O>>, n: nat, nodes: seq<Node<I, O>>,
                                             call: CallsEntry<I, O, S>, path: seq<int>, k: int)
    requires WellFormed(h, n) && IsOrder(path, n) && 0 <= k < |path| && Nodes(nodes, h, n)
  {
    && 0 < CallPos(h, n, path[k]) < |nodes| && call.entry == nodes[CallPos(h, n, path[k])]
    && call.entry.entry.Some? && call.entry.entry.value.id == path[k]
    && Perform(m, h, n, path[..k]) == Some(call.state)
  }

  /** The ids on the undo stack. */
  method StackIds<I(!new), O(!new), S>(calls: seq<CallsEntry<I, O, S>>) returns (ids: seq<int>)
    requires forall k :: 0 <= k < |calls| ==> calls[k].entry.entry.Some?
    ensures |ids| == |calls| && forall k :: 0 <= k < |calls| ==> ids[k] == calls[k].entry.entry.value.id
  {
    ids := [];
    for i := 0 to |calls|
      invariant |ids| == i && forall k :: 0 <= k < i ==> ids[k] == calls[k].entry.entry.value.id
    {
      ids := ids + [calls[i].entry.entry.value.id];
    }
  }

  /** At a dead end, records the current path for each operation on it that has no longer one. */
  method NoteLongest<I(!new), O(!new), S>(longest: seq<Option<seq<int>>>, calls: seq<CallsEntry<I, O, S>>, ghost path: seq<int>)
    returns (noted: seq<Option<seq<int>>>)
    requires |path| == |calls|
    requires forall k :: 0 <= k < |calls| ==> calls[k].entry.entry.Some? && calls[k].entry.entry.value.id == path[k]
    requires forall k :: 0 <= k < |path| ==> 0 <= path[k] < |longest|
    ensures noted == Noted(longest, path)
  {
    var order := StackIds(calls);
    assert order == path;
    noted := longest;
    for k := 0 to |calls|
      invariant |noted| == |longest|
      invariant forall i :: 0 <= i < |longest| ==>
                  noted[i] == if i in order[..k] then Noted(longest, order)[i] else longest[i]
    {
      var id := calls[k].entry.entry.value.id;
      assert order[..k + 1] == order[..k] + [id];
      if noted[id].None? || |calls| > |noted[id].value| {
        noted := noted[id := Some(order)];
      }
    }
    assert order[..|calls|] == order;
  }

  /** Everything the search keeps between two looks at the list, besides the list itself. */
  ghost predicate SearchInv<S(!new), I(!new), O(!new)>(
    m: Model<S, I, O>, h: seq<Entry<I, O>>, n: nat, nodes: seq<Node<I, O>>, calls: seq<CallsEntry<I, O, S>>,
    state: S, cache: Cache<S>, words: nat, path: seq<int>, seen: set<Config<S>>, at: int)
    requires WellFormed(h, n)
  {
    && Partial(m, h, n, path) && Perform(m, h, n, path) == Some(state)
    && StackOf(m, h, n, nodes, calls, path)
    && Stands(cache, words, seen)
    && SpaceOf(m, h, n).Searching(path, seen, PosOf(h, n), at)
    && InList(h, n, path, at)
    && (forall c :: c in seen && c.done == Range(n) ==> Ids(path) == Range(n))
  }

  /** The entry looked at is in the list with only calls before it; past the end when all operations are done. */
  ghost predicate InList<I, O>(h: seq<Entry<I, O>>, n: nat, path: seq<int>, at: int)
  {
    && 0 < at <= |h| + 1 && OnlyCallsBefore(h, Ids(path), at)
    && (at <= |h| ==> at in Remaining(h, Ids(path)))
    && (at == |h| + 1 <==> Ids(path) == Range(n))
  }

  /** The first entry in the list; there is none when all operations are done. */
  lemma FirstInList<I, O>(h: seq<Entry<I, O>>, n: nat, path: seq<int>) returns (first: int)
    requires WellFormed(h, n) && IsOrder(path, n)
    ensures InList(h, n, path, first) && Gap(h, Ids(path), 0, first)
  {
    first := NextInList(h, Ids(path), 0);
    if first == |h| + 1 {
      forall id | 0 <= id < n
        ensures id in Ids(path)
      {
        assert IsOperation(h, id, CallAt(h, n, id), ReturnAt(h, n, id));
        GapDone(h, n, Ids(path), first, id);
      }
      assert Ids(path) == Range(n);
    } else {
      assert RemainsAt(h, Ids(path), first);
    }
  }

  /** The head points at it. */
  lemma HeadPoints<I(!new), O(!new)>(nodes: seq<Node<I, O>>, h: seq<Entry<I, O>>, n: nat, path: seq<int>, first: int)
    requires WellFormed(h, n) && IsOrder(path, n) && Trail(nodes, h, n, path)
    requires InList(h, n, path, first) && Gap(h, Ids(path), 0, first)
    ensures nodes[0].next == if first <= |h| then nodes[first] else null
  {
    var linked := Remaining(h, Ids(path));
    if first <= |h| { assert Adjacent(linked, 0, first); } else { assert Last(linked, 0); }
  }

  /** The node after a call in the list: there is one, because the call's own return follows. */
  lemma NodeNext<I(!new), O(!new)>(nodes: seq<Node<I, O>>, h: seq<Entry<I, O>>, n: nat, path: seq<int>, at: int) returns (at': int)
    requires WellFormed(h, n) && IsOrder(path, n) && Trail(nodes, h, n, path)
    requires at in Remaining(h, Ids(path)) && at > 0 && h[at - 1].CallEntry? && OnlyCallsBefore(h, Ids(path), at)
    ensures InList(h, n, path, at') && Gap(h, Ids(path), at, at') && at < at' <= |h|
    ensures nodes[at].next == nodes[at']
  {
    at' := NextInList(h, Ids(path), at);
    PositionsUnique(h, n, at - 1);
    var id := h[at - 1].id;
    var r := ReturnAt(h, n, id) + 1;
    assert IsOperation(h, id, at - 1, r - 1);
    assert RemainsAt(h, Ids(path), at);
    assert r in Remaining(h, Ids(path));
    assert id in Range(n) && id !in Ids(path);
  }

  // ---------------------------------------------------------------------------------------------
  // One turn of the search
  // ---------------------------------------------------------------------------------------------

  /** At a call: it may be next, and the space says what the model says. */
  lemma AtCall<S(!new), I, O>(m: Model<S, I, O>, h: seq<Entry<I, O>>, n: nat, path: seq<int>, state: S, at: int)
    requires WellFormed(h, n) && Partial(m, h, n, path) && Perform(m, h, n, path) == Some(state)
    requires InList(h, n, path, at) && at <= |h| && h[at - 1].CallEntry?
    ensures var id, c := h[at - 1].id, Config(Ids(path), state);
            && 0 <= id < n && id !in path && CallPos(h, n, id) == at && Minimal(h, n, Ids(path), id)
            && SpaceOf(m, h, n).Follow(path) == Some(c)
            && SpaceOf(m, h, n).next(c, id) == var (ok, state') := StepOf(m, h, n, state, id);
                                               if ok then Some(Config(Ids(path) + {id}, state')) else None
  {
    CallIsMinimal(h, n, Ids(path), at);
    PathsArePartial(m, h, n, path);
  }

  /** The call may not be next, or leads to what has been seen: move on. */
  lemma SkipKeeps<S(!new), I(!new), O(!new)>(
    m: Model<S, I, O>, h: seq<Entry<I, O>>, n: nat, nodes: seq<Node<I, O>>, calls: seq<CallsEntry<I, O, S>>,
    state: S, cache: Cache<S>, words: nat, path: seq<int>, seen: set<Config<S>>, at: int, at': int)
    requires WellFormed(h, n) && SearchInv(m, h, n, nodes, calls, state, cache, words, path, seen, at)
    requires at <= |h| && h[at - 1].CallEntry? && Gap(h, Ids(path), at, at') && InList(h, n, path, at')
    requires SpaceOf(m, h, n).Tried(seen, Config(Ids(path), state), h[at - 1].id)
    ensures SearchInv(m, h, n, nodes, calls, state, cache, words, path, seen, at')
  {
    PathsArePartial(m, h, n, path);
    SkipTo(m, h, n, path, seen, at, at');
  }

  /** The call leads somewhere new: go there and start over at the front. */
  lemma DescendKeeps<S(!new), I(!new), O(!new)>(
    m: Model<S, I, O>, h: seq<Entry<I, O>>, n: nat, nodes: seq<Node<I, O>>, calls: seq<CallsEntry<I, O, S>>,
    state: S, cache: Cache<S>, words: nat, path: seq<int>, seen: set<Config<S>>, at: int,
    state': S, cache': Cache<S>) returns (at': int)
    requires WellFormed(h, n) && SearchInv(m, h, n, nodes, calls, state, cache, words, path, seen, at)
    requires at <= |h| && h[at - 1].CallEntry? && 0 <= h[at - 1].id < n
    requires StepOf(m, h, n, state, h[at - 1].id) == (true, state')
    requires var c := Config(Ids(path) + {h[at - 1].id}, state');
             c !in seen && Stands(cache', words, seen + {c})
    ensures Gap(h, Ids(path + [h[at - 1].id]), 0, at')
    ensures var id := h[at - 1].id;
            SearchInv(m, h, n, nodes, calls + [CallsEntry(nodes[at], state)], state', cache', words,
                      path + [id], seen + {Config(Ids(path) + {id}, state')}, at')
  {
    hide RealTime, Linked, Stands, WellFormed, Nodes, StackAt, CallPos;
    var id := h[at - 1].id;
    var c, path' := Config(Ids(path) + {id}, state'), path + [id];
    AtCall(m, h, n, path, state, at);
    PartialExtends(m, h, n, path, id);
    at' := FirstInList(h, n, path');
    DescendTo(m, h, n, path, seen, id, c, at');
    StackGrows(m, h, n, nodes, calls, path, state, at);
    assert Ids(path) != Range(n) by { assert id in Range(n); }
  }

  lemma StackGrows<S, I(!new), O(!new)>(m: Model<S, I, O>, h: seq<Entry<I, O>>, n: nat, nodes: seq<Node<I, O>>,
                                      calls: seq<CallsEntry<I, O, S>>, path: seq<int>, state: S, at: int)
    requires WellFormed(h, n) && Partial(m, h, n, path) && StackOf(m, h, n, nodes, calls, path)
    requires 0 < at <= |h| && h[at - 1].CallEntry? && Partial(m, h, n, path + [h[at - 1].id])
    requires Perform(m, h, n, path) == Some(state)
    ensures StackOf(m, h, n, nodes, calls + [CallsEntry(nodes[at], state)], path + [h[at - 1].id])
  {
    var path', calls' := path + [h[at - 1].id], calls + [CallsEntry(nodes[at], state)];
    NodeAt(nodes, h, n, at);
    forall k | 0 <= k < |path'|
      ensures StackAt(m, h, n, nodes, calls'[k], path', k)
    {
      assert path'[..k] == path[..k];
      if k < |path| { assert StackAt(m, h, n, nodes, calls[k], path, k); } else { assert path[..k] == path; }
    }
  }

  lemma StackShrinks<S, I(!new), O(!new)>(m: Model<S, I, O>, h: seq<Entry<I, O>>, n: nat, nodes: seq<Node<I, O>>,
                                        calls: seq<CallsEntry<I, O, S>>, path: seq<int>)
    requires WellFormed(h, n) && Partial(m, h, n, path) && StackOf(m, h, n, nodes, calls, path) && |path| > 0
    ensures Partial(m, h, n, path[..|path| - 1]) && StackOf(m, h, n, nodes, calls[..|path| - 1], path[..|path| - 1])
    ensures StackAt(m, h, n, nodes, calls[|path| - 1], path, |path| - 1)
  {
    var up := path[..|path| - 1];
    PartialShorter(m, h, n, path);
    forall k | 0 <= k < |up|
      ensures StackAt(m, h, n, nodes, calls[k], up, k)
    {
      assert up[..k] == path[..k];
      assert StackAt(m, h, n, nodes, calls[k], path, k);
    }
  }

  /** At a return: a dead end. Undo the last operation and move on behind its call. */
  lemma ReturnKeeps<S(!new), I(!new), O(!new)>(
    m: Model<S, I, O>, h: seq<Entry<I, O>>, n: nat, nodes: seq<Node<I, O>>, calls: seq<CallsEntry<I, O, S>>,
    state: S, cache: Cache<S>, words: nat, path: seq<int>, seen: set<Config<S>>, at: int, at': int)
    requires WellFormed(h, n) && SearchInv(m, h, n, nodes, calls, state, cache, words, path, seen, at)
    requires at <= |h| && h[at - 1].ReturnEntry? && |path| > 0
    requires var up := path[..|path| - 1];
             Gap(h, Ids(up), CallPos(h, n, path[|path| - 1]), at') && InList(h, n, up, at')
    ensures SearchInv(m, h, n, nodes, calls[..|path| - 1], calls[|path| - 1].state, cache, words,
                      path[..|path| - 1], seen, at')
  {
    PathsArePartial(m, h, n, path);
    ReturnCloses(m, h, n, path, seen, at);
    ReturnTo(m, h, n, path, seen, at, at');
    StackShrinks(m, h, n, nodes, calls, path);
  }

  // ---------------------------------------------------------------------------------------------
  // What the search answers
  // ---------------------------------------------------------------------------------------------

  /** A longest partial linearization with operation i, or none if there is no partial linearization with it. */
  ghost predicate IsLongest<S, I, O>(m: Model<S, I, O>, h: seq<Entry<I, O>>, n: nat, longest: Option<seq<int>>, i: int)
    requires WellFormed(h, n)
  {
    && (longest.Some? ==> Partial(m, h, n, longest.value) && i in longest.value)
    && forall order :: Partial(m, h, n, order) && i in order ==> longest.Some? && |order| <= |longest.value|
  }

  /** All operations done: the path is a linearization. */
  lemma PathIsComplete<S, I, O>(m: Model<S, I, O>, h: seq<Entry<I, O>>, n: nat, path: seq<int>)
    requires WellFormed(h, n) && Partial(m, h, n, path) && Ids(path) == Range(n)
    ensures Linearization(m, h, n, path)
  {
    OrderSize(path, n);
    CompletePartial(m, h, n, path);
  }

  /** Nothing left to undo at a return: no linearization exists. */
  lemma NoneExists<S(!new), I(!new), O(!new)>(
    m: Model<S, I, O>, h: seq<Entry<I, O>>, n: nat, nodes: seq<Node<I, O>>, calls: seq<CallsEntry<I, O, S>>,
    state: S, cache: Cache<S>, words: nat, seen: set<Config<S>>, at: int)
    requires WellFormed(h, n) && SearchInv(m, h, n, nodes, calls, state, cache, words, [], seen, at)
    requires at <= |h| && h[at - 1].ReturnEntry?
    ensures !Linearizable(m, h, n)
    ensures SpaceOf(m, h, n).Closed(seen, SpaceOf(m, h, n).root)
  {
    var sp := SpaceOf(m, h, n);
    PathsArePartial(m, h, n, []);
    ReturnCloses(m, h, n, [], seen, at);
    forall order
      ensures !Linearization(m, h, n, order)
    {
      CompletePartial(m, h, n, order);
      PathsArePartial(m, h, n, order);
      if |order| == n && Partial(m, h, n, order) {
        ExhaustedSees(sp, seen, order);
        OrderSize(order, n);
        SubsetSize(Ids(order), Range(n));
      }
    }
  }

  lemma LongestRecorded<S(!new), I, O>(m: Model<S, I, O>, h: seq<Entry<I, O>>, n: nat, longest: seq<Option<seq<int>>>, seen: set<Config<S>>)
    requires WellFormed(h, n) && Recorded(SpaceOf(m, h, n), longest, [], seen)
    requires SpaceOf(m, h, n).Closed(seen, SpaceOf(m, h, n).root) && forall c :: SpaceOf(m, h, n).Seen([], seen, c)
    ensures forall i :: 0 <= i < n ==> IsLongest(m, h, n, longest[i], i)
  {
    var sp := SpaceOf(m, h, n);
    forall i | 0 <= i < n
      ensures IsLongest(m, h, n, longest[i], i)
    {
      assert IsPathWith(sp, longest, i);
      if longest[i].Some? { PathsArePartial(m, h, n, longest[i].value); }
      forall order | Partial(m, h, n, order) && i in order
        ensures longest[i].Some? && |order| <= |longest[i].value|
      {
        PathsArePartial(m, h, n, order);
        RecordMaximal(sp, longest, seen, order, i);
      }
    }
  }

  /** Looks whether performing `id` leads to a configuration not seen before, and if so puts it in the cache. */
  method Visit<S(==, !new)>(cache: Cache<S>, linearized: array<Word>, id: nat, state': S, ghost seen: set<Config<S>>)
    returns (isNew: bool, cache': Cache<S>)
    requires Stands(cache, linearized.Length, seen) && id < 64 * linearized.Length
    ensures var c := Config(Members(linearized[..]) + {id}, state');
            isNew == (c !in seen) && if isNew then Stands(cache', linearized.Length, seen + {c}) else cache' == cache
  {
    var newLinearized := Clone(linearized);
    SetBit(newLinearized, id);
    var found := CacheContains(cache, newLinearized, state', seen);
    if found { return false, cache; }
    var e := CacheEntry(newLinearized[..], state');
    InsertStands(cache, linearized.Length, seen, e, Config(Members(newLinearized[..]), state'));
    return true, Insert(cache, e);
  }

  /** The whole chain behind the head is the list that nothing has been lifted from. */
  lemma WholeTrail<I(!new), O(!new)>(nodes: seq<Node<I, O>>, h: seq<Entry<I, O>>, n: nat)
    requires WellFormed(h, n) && Chain(nodes) && |nodes| == |h| + 1 && Layout(nodes[1..], h, n, 0)
    ensures Trail(nodes, h, n, []) && nodes[0].next == if |nodes| > 1 then nodes[1] else null
  {
    hide WellFormed, Layout, Linked;
    ChainLinked(nodes);
    assert ChainAt(nodes, 0);
    forall p
      ensures p in Remaining(h, {}) <==> p in Range(|nodes|)
    {
    }
    assert Remaining(h, {}) == Range(|nodes|);
    assert Ids([]) == {};
  }

  /** The list with its head node, everything still linked. */
  method MakeHistory<I(!new), O(!new)>(h: seq<Entry<I, O>>, ghost n: nat)
    returns (entry: Node?<I, O>, operations: nat, head: Node<I, O>, ghost nodes: seq<Node<I, O>>)
    requires WellFormed(h, n)
    ensures fresh(nodes) && Trail(nodes, h, n, []) && head == nodes[0] && operations == n
    ensures entry == head.next
  {
    hide LayoutAt, Trail, Chain;
    ghost var rest: seq<Node<I, O>>;
    entry, rest := MakeLinkedEntries(h, n);
    var length := Length(entry, rest);
    operations := length / 2;
    head := new Node(None, null);
    head := InsertBefore(head, entry, rest, 0);
    nodes := [head] + rest;
    assert rest[..0] + [head] + rest[0..] == nodes;
    assert nodes[1..] == rest;
    WholeTrail(nodes, h, n);
  }

  /** What holds at the top of the loop, apart from the record of longest paths. */
  ghost predicate AtTop<S(!new), I(!new), O(!new)>(
    m: Model<S, I, O>, h: seq<Entry<I, O>>, n: nat, nodes: seq<Node<I, O>>, head: Node<I, O>, entry: Node?<I, O>,
    linearized: array<Word>, calls: seq<CallsEntry<I, O, S>>, state: S, cache: Cache<S>, path: seq<int>,
    seen: set<Config<S>>, at: int)
    requires WellFormed(h, n)
    reads nodes, linearized
  {
    && SearchInv(m, h, n, nodes, calls, state, cache, linearized.Length, path, seen, at)
    && Trail(nodes, h, n, path) && head == nodes[0]
    && (at <= |h| ==> entry == nodes[at])
    && (head.next == null <==> at == |h| + 1)
    && Members(linearized[..]) == Ids(path) && n <= 64 * linearized.Length
  }

  /** The record is right if it is kept, and blank otherwise. */
  ghost predicate Record<S(!new)>(sp: Space<S>, longest: seq<Option<seq<int>>>, keep: bool, path: seq<int>, seen: set<Config<S>>)
  {
    |longest| == sp.n && if keep then Recorded(sp, longest, path, seen) else forall i :: 0 <= i < sp.n ==> longest[i].None?
  }

  /** One more operation on the path, to a configuration not seen before. */
  ghost predicate WentDown<S(!new)>(sp: Space<S>, path: seq<int>, seen: set<Config<S>>, path': seq<int>, seen': set<Config<S>>, c: Config<S>)
  {
    && |path'| == |path| + 1 && path' == path + [path'[|path|]] && c !in seen && seen' == seen + {c}
    && sp.Follow(path') == Some(c) && sp.Seen(path', seen', c)
  }

  /** Takes the call to the new configuration. */
  method StepDown<S(!new), I(!new), O(!new)>(
    m: Model<S, I, O>, ghost h: seq<Entry<I, O>>, ghost n: nat, ghost nodes: seq<Node<I, O>>, head: Node<I, O>,
    entry: Node<I, O>, linearized: array<Word>, calls: seq<CallsEntry<I, O, S>>, state: S, state': S,
    ghost cache: Cache<S>, cache': Cache<S>, ghost path: seq<int>, ghost seen: set<Config<S>>, ghost at: int)
    returns (next: Node?<I, O>, calls': seq<CallsEntry<I, O, S>>, ghost at': int)
    requires WellFormed(h, n) && AtTop(m, h, n, nodes, head, entry, linearized, calls, state, cache, path, seen, at)
    requires at <= |h| && h[at - 1].CallEntry? && 0 <= h[at - 1].id < n && h[at - 1].id !in path
    requires StepOf(m, h, n, state, h[at - 1].id) == (true, state')
    requires var c := Config(Ids(path) + {h[at - 1].id}, state'); c !in seen && Stands(cache', linearized.Length, seen + {c})
    modifies nodes, linearized
    ensures AtTop(m, h, n, nodes, head, next, linearized, calls', state', cache',
                  path + [h[at - 1].id], seen + {Config(Ids(path) + {h[at - 1].id}, state')}, at')
    ensures var c := Config(Ids(path) + {h[at - 1].id}, state');
            WentDown(SpaceOf(m, h, n), path, seen, path + [h[at - 1].id], seen + {c}, c)
  {
    hide Perform, Linked, Stands, Members;
    ghost var id := h[at - 1].id;
    assert entry.entry == Some(h[at - 1]) && CallPos(h, n, id) == at by {
      NodeAt(nodes, h, n, at);
      AtCall(m, h, n, path, state, at);
    }
    at' := DescendKeeps(m, h, n, nodes, calls, state, cache, linearized.Length, path, seen, at, state', cache');
    calls' := calls + [CallsEntry(entry, state)];
    PathsArePartial(m, h, n, path + [id]);
    assert Ids(path + [id]) == Ids(path) + {id};
    next := TakeCall(h, n, nodes, head, entry, linearized, path, id, at');
  }

  /** Marks the operation, lifts it out of the list, and goes back to the front. */
  method TakeCall<I(!new), O(!new)>(
    ghost h: seq<Entry<I, O>>, ghost n: nat, ghost nodes: seq<Node<I, O>>, head: Node<I, O>, entry: Node<I, O>,
    linearized: array<Word>, ghost path: seq<int>, ghost id: int, ghost first: int) returns (next: Node?<I, O>)
    requires WellFormed(h, n) && IsOrder(path, n) && Trail(nodes, h, n, path) && head == nodes[0]
    requires 0 <= id < n <= 64 * linearized.Length && id !in path && entry == nodes[CallPos(h, n, id)] && entry.entry.Some?
    requires entry.entry.value.id == id && Members(linearized[..]) == Ids(path)
    requires IsOrder(path + [id], n) && InList(h, n, path + [id], first) && Gap(h, Ids(path + [id]), 0, first)
    modifies nodes, linearized
    ensures Trail(nodes, h, n, path + [id]) && Members(linearized[..]) == Ids(path + [id])
    ensures next == head.next == if first <= |h| then nodes[first] else null
  {
    hide Trail, InList, Gap, Members, CallPos, WellFormed, IsOrder;
    SetBit(linearized, entry.entry.value.id);
    LiftStep(entry, nodes, h, n, path, id);
    next := head.next;
    HeadPoints(nodes, h, n, path + [id], first);
    assert Ids(path + [id]) == Ids(path) + {id};
  }

  lemma NextAfterUndo<I(!new), O(!new)>(nodes: seq<Node<I, O>>, h: seq<Entry<I, O>>, n: nat, up: seq<int>, id: int) returns (at': int)
    requires WellFormed(h, n) && IsOrder(up, n) && Trail(nodes, h, n, up) && Minimal(h, n, Ids(up), id)
    ensures InList(h, n, up, at') && at' <= |h| && Gap(h, Ids(up), CallPos(h, n, id), at')
    ensures nodes[CallPos(h, n, id)].next == nodes[at'] && nodes[0].next != null
  {
    var at := CallPos(h, n, id);
    assert IsOperation(h, id, at - 1, ReturnAt(h, n, id));
    assert at in Remaining(h, Ids(up));
    OnlyCallsUpTo(h, n, Ids(up), id, at);
    at' := NodeNext(nodes, h, n, up, at);
    var first := FirstInList(h, n, up);
    HeadPoints(nodes, h, n, up, first);
  }

  /** At a call: takes it if the model accepts it and it leads somewhere new, and moves on otherwise. */
  method TryCall<S(==, !new), I(!new), O(!new)>(
    m: Model<S, I, O>, ghost h: seq<Entry<I, O>>, ghost n: nat, ghost nodes: seq<Node<I, O>>, head: Node<I, O>,
    entry: Node<I, O>, linearized: array<Word>, calls: seq<CallsEntry<I, O, S>>, state: S, cache: Cache<S>,
    ghost path: seq<int>, ghost seen: set<Config<S>>, ghost at: int)
    returns (next: Node?<I, O>, calls': seq<CallsEntry<I, O, S>>, state': S, cache': Cache<S>,
             ghost path': seq<int>, ghost seen': set<Config<S>>, ghost at': int)
    requires WellFormed(h, n) && AtTop(m, h, n, nodes, head, entry, linearized, calls, state, cache, path, seen, at)
    requires 0 < at <= |h| && h[at - 1].CallEntry?
    modifies nodes, linearized
    ensures AtTop(m, h, n, nodes, head, next, linearized, calls', state', cache', path', seen', at')
    ensures if |path'| > |path| then WentDown(SpaceOf(m, h, n), path, seen, path', seen', Config(Ids(path'), state'))
            else path' == path && seen' == seen && calls' == calls && at < at' <= |h|
  {
    hide AtTop;
    ghost var id := h[at - 1].id;
    var isNew, newState;
    isNew, newState, cache' := TryConfig(m, h, n, nodes, head, entry, linearized, calls, state, cache, path, seen, at);
    if isNew {
      state', path', seen' := newState, path + [id], seen + {Config(Ids(path) + {id}, newState)};
      next, calls', at' := StepDown(m, h, n, nodes, head, entry, linearized, calls, state, newState, cache, cache', path, seen, at);
      assert Ids(path') == Ids(path) + {id};
    } else {
      calls', state', path', seen' := calls, state, path, seen;
      next, at' := StepOn(m, h, n, nodes, head, entry, linearized, calls, state, cache, path, seen, at);
    }
  }

  /** On to the next entry in the list. */
  method StepOn<S(!new), I(!new), O(!new)>(
    ghost m: Model<S, I, O>, ghost h: seq<Entry<I, O>>, ghost n: nat, ghost nodes: seq<Node<I, O>>, ghost head: Node<I, O>,
    entry: Node<I, O>, ghost linearized: array<Word>, ghost calls: seq<CallsEntry<I, O, S>>, ghost state: S, ghost cache: Cache<S>,
    ghost path: seq<int>, ghost seen: set<Config<S>>, ghost at: int)
    returns (next: Node?<I, O>, ghost at': int)
    requires WellFormed(h, n) && AtTop(m, h, n, nodes, head, entry, linearized, calls, state, cache, path, seen, at)
    requires at <= |h| && h[at - 1].CallEntry?
    requires SpaceOf(m, h, n).Tried(seen, Config(Ids(path), state), h[at - 1].id)
    ensures AtTop(m, h, n, nodes, head, next, linearized, calls, state, cache, path, seen, at') && at < at' <= |h|
  {
    at' := NodeNext(nodes, h, n, path, at);
    SkipKeeps(m, h, n, nodes, calls, state, cache, linearized.Length, path, seen, at, at');
    next := entry.next;
  }

  /** Asks the model, and looks in the cache whether the configuration it leads to is new. */
  method TryConfig<S(==, !new), I(!new), O(!new)>(
    m: Model<S, I, O>, ghost h: seq<Entry<I, O>>, ghost n: nat, ghost nodes: seq<Node<I, O>>, ghost head: Node<I, O>,
    entry: Node<I, O>, linearized: array<Word>, ghost calls: seq<CallsEntry<I, O, S>>, state: S, cache: Cache<S>,
    ghost path: seq<int>, ghost seen: set<Config<S>>, ghost at: int)
    returns (isNew: bool, newState: S, cache': Cache<S>)
    requires WellFormed(h, n) && AtTop(m, h, n, nodes, head, entry, linearized, calls, state, cache, path, seen, at)
    requires at <= |h| && h[at - 1].CallEntry?
    ensures 0 <= at - 1 && 0 <= h[at - 1].id < n && h[at - 1].id !in path
    ensures var c := Config(Ids(path) + {h[at - 1].id}, newState);
            isNew ==> StepOf(m, h, n, state, h[at - 1].id) == (true, newState) && c !in seen
                      && Stands(cache', linearized.Length, seen + {c})
    ensures !isNew ==> cache' == cache && SpaceOf(m, h, n).Tried(seen, Config(Ids(path), state), h[at - 1].id)
  {
    var accepted;
    accepted, newState := AskModel(m, h, n, nodes, entry, state, path, at);
    isNew, cache' := false, cache;
    if accepted {
      isNew, cache' := Visit(cache, linearized, entry.entry.value.id, newState, seen);
    }
  }

  /** Asks the model whether the operation may happen in this state, with the response that its return carries. */
  method AskModel<S(!new), I(!new), O(!new)>(
    m: Model<S, I, O>, ghost h: seq<Entry<I, O>>, ghost n: nat, ghost nodes: seq<Node<I, O>>, entry: Node<I, O>, state: S,
    ghost path: seq<int>, ghost at: int) returns (accepted: bool, state': S)
    requires WellFormed(h, n) && Partial(m, h, n, path) && Perform(m, h, n, path) == Some(state)
    requires InList(h, n, path, at) && at <= |h| && h[at - 1].CallEntry? && Nodes(nodes, h, n) && entry == nodes[at]
    ensures var id, c := h[at - 1].id, Config(Ids(path), state);
            && entry.entry == Some(h[at - 1]) && 0 <= id < n && id !in path
            && (accepted, state') == StepOf(m, h, n, state, id)
            && SpaceOf(m, h, n).next(c, id) == if accepted then Some(Config(Ids(path) + {id}, state')) else None
  {
    AtCall(m, h, n, path, state, at);
    NodeAt(nodes, h, n, at);
    NodeAt(nodes, h, n, ReturnPos(h, n, h[at - 1].id));
    var (ok, s) := m.step(state, entry.entry.value.input, entry.mate.entry.value.output);
    return ok, s;
  }

  /** Which kind of entry the search looks at; there is one while something is left in the list. */
  method LookAt<S(!new), I(!new), O(!new)>(
    ghost m: Model<S, I, O>, ghost h: seq<Entry<I, O>>, ghost n: nat, ghost nodes: seq<Node<I, O>>, head: Node<I, O>, entry: Node?<I, O>,
    ghost linearized: array<Word>, ghost calls: seq<CallsEntry<I, O, S>>, ghost state: S, ghost cache: Cache<S>, ghost path: seq<int>,
    ghost seen: set<Config<S>>, ghost at: int) returns (isCall: bool)
    requires WellFormed(h, n) && AtTop(m, h, n, nodes, head, entry, linearized, calls, state, cache, path, seen, at) && head.next != null
    ensures entry != null && 0 < at <= |h| && isCall == h[at - 1].CallEntry?
  {
    NodeAt(nodes, h, n, at);
    isCall := entry.mate != null;
  }

  /** The ids on the undo stack are the path. */
  method PathOnStack<S, I(!new), O(!new)>(ghost m: Model<S, I, O>, ghost h: seq<Entry<I, O>>, ghost n: nat, ghost nodes: seq<Node<I, O>>,
                                          calls: seq<CallsEntry<I, O, S>>, ghost path: seq<int>) returns (order: seq<int>)
    requires WellFormed(h, n) && Partial(m, h, n, path) && StackOf(m, h, n, nodes, calls, path)
    ensures order == path
  {
    forall k | 0 <= k < |calls|
      ensures calls[k].entry.entry.Some? && calls[k].entry.entry.value.id == path[k]
    {
      assert StackAt(m, h, n, nodes, calls[k], path, k);
    }
    order := StackIds(calls);
  }

  /** At a dead end, notes the path for the operations on it. */
  method RecordPath<S(!new), I(!new), O(!new)>(
    ghost m: Model<S, I, O>, ghost h: seq<Entry<I, O>>, ghost n: nat, ghost nodes: seq<Node<I, O>>,
    calls: seq<CallsEntry<I, O, S>>, longest: seq<Option<seq<int>>>, keep: bool, ghost path: seq<int>, ghost seen: set<Config<S>>)
    returns (noted: seq<Option<seq<int>>>)
    requires WellFormed(h, n) && Partial(m, h, n, path) && StackOf(m, h, n, nodes, calls, path) && |path| > 0
    requires Record(SpaceOf(m, h, n), longest, keep, path, seen)
    ensures Record(SpaceOf(m, h, n), noted, keep, path[..|path| - 1], seen)
  {
    noted := longest;
    if keep {
      forall k | 0 <= k < |calls|
        ensures calls[k].entry.entry.Some? && calls[k].entry.entry.value.id == path[k]
      {
        assert StackAt(m, h, n, nodes, calls[k], path, k);
      }
      noted := NoteLongest(longest, calls, path);
      PathsArePartial(m, h, n, path);
      RecordedReturns(SpaceOf(m, h, n), longest, path, seen);
    }
  }

  lemma RecordGoesOn<S(!new)>(sp: Space<S>, longest: seq<Option<seq<int>>>, keep: bool, path: seq<int>, seen: set<Config<S>>,
                              path': seq<int>, seen': set<Config<S>>, c: Config<S>)
    requires Record(sp, longest, keep, path, seen) && WentDown(sp, path, seen, path', seen', c)
    ensures Record(sp, longest, keep, path', seen')
    ensures |sp.Within(sp.n) - seen'| < |sp.Within(sp.n) - seen|
  {
    if keep { RecordedDescends(sp, longest, path, seen, path'[|path|], c); }
    SeesMore(sp, path', seen, c);
  }

  /** Seeing a new configuration leaves fewer to see. */
  lemma SeesMore<S(!new)>(sp: Space<S>, path: seq<int>, seen: set<Config<S>>, c: Config<S>)
    requires c !in seen && sp.Seen(path, seen + {c}, c)
    ensures |sp.Within(sp.n) - (seen + {c})| < |sp.Within(sp.n) - seen|
  {
    assert sp.Within(sp.n) - (seen + {c}) == sp.Within(sp.n) - seen - {c};
  }

  /** The search starts at the front of the whole list, with nothing done and nothing seen. */
  lemma SearchBegins<S(!new), I(!new), O(!new)>(
    m: Model<S, I, O>, h: seq<Entry<I, O>>, n: nat, nodes: seq<Node<I, O>>, head: Node<I, O>, entry: Node?<I, O>,
    linearized: array<Word>, cache: Cache<S>, longest: seq<Option<seq<int>>>, keep: bool) returns (at: int)
    requires WellFormed(h, n) && Trail(nodes, h, n, []) && head == nodes[0] && entry == head.next && cache == map[]
    requires Members(linearized[..]) == {} && n <= 64 * linearized.Length && longest == seq(n, _ => None)
    ensures AtTop(m, h, n, nodes, head, entry, linearized, [], m.init, cache, [], {}, at)
    ensures Record(SpaceOf(m, h, n), longest, keep, [], {})
  {
    hide Space.Within, Minimal, RealTime, Members, Gap;
    at := FirstInList(h, n, []);
    HeadPoints(nodes, h, n, [], at);
    assert Ids([]) == {};
    forall id | 0 <= id < n
      ensures PosOf(h, n)(id) >= at
    {
      if CallPos(h, n, id) < at { GapDone(h, n, {}, at, id); }
    }
    Begins(SpaceOf(m, h, n), PosOf(h, n), at);
  }

  /** Undone everything at a return: there is no linearization, and the record is final. */
  lemma SearchFails<S(!new), I(!new), O(!new)>(
    m: Model<S, I, O>, h: seq<Entry<I, O>>, n: nat, nodes: seq<Node<I, O>>, head: Node<I, O>, entry: Node?<I, O>,
    linearized: array<Word>, state: S, cache: Cache<S>, path: seq<int>, seen: set<Config<S>>, at: int,
    longest: seq<Option<seq<int>>>, keep: bool)
    requires WellFormed(h, n) && AtTop(m, h, n, nodes, head, entry, linearized, [], state, cache, path, seen, at)
    requires at <= |h| && h[at - 1].ReturnEntry? && Record(SpaceOf(m, h, n), longest, keep, path, seen)
    ensures !Linearizable(m, h, n) && |longest| == n
    ensures keep ==> forall i :: 0 <= i < n ==> IsLongest(m, h, n, longest[i], i)
    ensures !keep ==> forall i :: 0 <= i < n ==> longest[i].None?
  {
    NoneExists(m, h, n, nodes, [], state, cache, linearized.Length, seen, at);
    if keep { LongestRecorded(m, h, n, longest, seen); }
  }

  /** Nothing left in the list: the undo stack is a linearization. */
  method Complete<S(!new), I(!new), O(!new)>(
    ghost m: Model<S, I, O>, ghost h: seq<Entry<I, O>>, ghost n: nat, ghost nodes: seq<Node<I, O>>, ghost head: Node<I, O>, ghost entry: Node?<I, O>,
    ghost linearized: array<Word>, calls: seq<CallsEntry<I, O, S>>, ghost state: S, ghost cache: Cache<S>, ghost path: seq<int>,
    ghost seen: set<Config<S>>, ghost at: int) returns (order: seq<int>)
    requires WellFormed(h, n) && AtTop(m, h, n, nodes, head, entry, linearized, calls, state, cache, path, seen, at) && head.next == null
    ensures Linearization(m, h, n, order)
  {
    order := PathOnStack(m, h, n, nodes, calls, path);
    PathIsComplete(m, h, n, path);
  }

  /** At a return: notes the path, undoes its last operation and moves on behind it. */
  method StepUp<S(!new), I(!new), O(!new)>(
    m: Model<S, I, O>, ghost h: seq<Entry<I, O>>, ghost n: nat, ghost nodes: seq<Node<I, O>>, ghost head: Node<I, O>,
    ghost entry: Node<I, O>, linearized: array<Word>, calls: seq<CallsEntry<I, O, S>>, ghost state: S, ghost cache: Cache<S>,
    ghost path: seq<int>, ghost seen: set<Config<S>>, ghost at: int,
    longest: seq<Option<seq<int>>>, keep: bool)
    returns (next: Node?<I, O>, calls': seq<CallsEntry<I, O, S>>, state': S, noted: seq<Option<seq<int>>>, ghost at': int)
    requires WellFormed(h, n) && AtTop(m, h, n, nodes, head, entry, linearized, calls, state, cache, path, seen, at)
    requires at <= |h| && h[at - 1].ReturnEntry? && |calls| > 0 && Record(SpaceOf(m, h, n), longest, keep, path, seen)
    modifies nodes, linearized
    ensures calls' == calls[..|calls| - 1] && |path| == |calls|
    ensures AtTop(m, h, n, nodes, head, next, linearized, calls', state', cache, path[..|path| - 1], seen, at')
    ensures Record(SpaceOf(m, h, n), noted, keep, path[..|path| - 1], seen)
  {
    ghost var up, last := path[..|path| - 1], path[|path| - 1];
    StackShrinks(m, h, n, nodes, calls, path);
    PartialShorter(m, h, n, path);
    IdsShorter(path);
    noted := RecordPath(m, h, n, nodes, calls, longest, keep, path, seen);
    var callsTop := calls[|calls| - 1];
    var undone := callsTop.entry;
    state' := callsTop.state;
    ClearBit(linearized, undone.entry.value.id);
    calls' := calls[..|calls| - 1];
    UnliftStep(undone, nodes, h, n, path);
    at' := NextAfterUndo(nodes, h, n, up, last);
    ReturnKeeps(m, h, n, nodes, calls, state, cache, linearized.Length, path, seen, at, at');
    next := undone.next;
  }

  /** Decides linearizability by depth-first search. It never dereferences nil and always ends: a turn sees a
      new configuration, or undoes an operation, or moves on in the list. */
  method CheckSingle<S(==, !new), I(!new), O(!new)>(m: Model<S, I, O>, h: seq<Entry<I, O>>, ghost n: nat, computePartial: bool)
    returns (ok: bool, longest: seq<Option<seq<int>>>)
    requires WellFormed(h, n)
    ensures ok <==> Linearizable(m, h, n)
    ensures |longest| == n
    ensures ok ==> forall i :: 0 <= i < n ==> longest[i].Some? && Linearization(m, h, n, longest[i].value)
    ensures !ok && computePartial ==> forall i :: 0 <= i < n ==> IsLongest(m, h, n, longest[i], i)
    ensures !ok && !computePartial ==> forall i :: 0 <= i < n ==> longest[i].None?
  {
    hide AtTop, Record;
    var entry, operations, head, nodes := MakeHistory(h, n);
    var linearized := NewBitset(operations);
    var cache: Cache<S> := map[];
    var calls: seq<CallsEntry<I, O, S>> := [];
    longest := seq(operations, _ => None);
    var state := m.init;
    ghost var sp, path: seq<int>, seen: set<Config<S>> := SpaceOf(m, h, n), [], {};
    ghost var at := SearchBegins(m, h, n, nodes, head, entry, linearized, cache, longest, computePartial);
    while head.next != null
      invariant AtTop(m, h, n, nodes, head, entry, linearized, calls, state, cache, path, seen, at)
      invariant Record(sp, longest, computePartial, path, seen)
      decreases |sp.Within(n) - seen|, |calls|, |h| + 1 - at
    {
      var isCall := LookAt(m, h, n, nodes, head, entry, linearized, calls, state, cache, path, seen, at);
      if isCall {
        ghost var path0, seen0 := path, seen;
        entry, calls, state, cache, path, seen, at := TryCall(m, h, n, nodes, head, entry, linearized, calls, state, cache, path, seen, at);
        if |path| > |path0| { RecordGoesOn(sp, longest, computePartial, path0, seen0, path, seen, Config(Ids(path), state)); }
      } else {
        if |calls| == 0 {
          SearchFails(m, h, n, nodes, head, entry, linearized, state, cache, path, seen, at, longest, computePartial);
          return false, longest;
        }
        entry, calls, state, longest, at :=
          StepUp(m, h, n, nodes, head, entry, linearized, calls, state, cache, path, seen, at, longest, computePartial);
        path := path[..|path| - 1];
      }
    }
    var order := Complete(m, h, n, nodes, head, entry, linearized, calls, state, cache, path, seen, at);
    return true, seq(operations, _ => Some(order));
  }
}
