/** Depth-first search with a cache, over any space of configurations in which each step performs one more
    operation: why pruning what the cache has seen loses nothing, and why the search ends. */
module PorcupineSearch {

  datatype Option<+T> = None | Some(value: T)

  /** What the search remembers: which operations are done, and the state they led to. */
  datatype Config<+S> = Config(done: set<int>, state: S)

  /** `next(c, id)` is the configuration after operation id, or None if it may not be next. */
  datatype Space<!S(!new)> = Space(root: Config<S>, next: (Config<S>, int) -> Option<Config<S>>, n: nat)
  {
    /** Each step performs one of n operations that is not done yet. */
    ghost predicate Proper()
    {
      root.done == {} && forall c, id :: Advances(c, id)
    }

    ghost predicate Advances(c: Config<S>, id: int)
    {
      next(c, id).Some? ==> 0 <= id < n && id !in c.done && next(c, id).value.done == c.done + {id}
    }

    ghost function Follow(path: seq<int>): Option<Config<S>>
    {
      if |path| == 0 then Some(root) else
      match Follow(path[..|path| - 1])
      case None => None
      case Some(c) => next(c, path[|path| - 1])
    }

    ghost function Successors(cs: set<Config<S>>): set<Config<S>>
    {
      set c, id | c in cs && id in Range(n) && next(c, id).Some? :: next(c, id).value
    }

    /** The configurations within k steps of the root. */
    ghost function Within(k: nat): set<Config<S>>
    {
      if k == 0 then {root} else Within(k - 1) + Successors(Within(k - 1))
    }

    // -------------------------------------------------------------------------------------------
    // The state of a search
    // -------------------------------------------------------------------------------------------

    /** Operation id may not be next after c, or has been taken from c. */
    ghost predicate Tried(seen: set<Config<S>>, c: Config<S>, id: int)
    {
      next(c, id).Some? ==> next(c, id).value in seen
    }

    ghost predicate Closed(seen: set<Config<S>>, c: Config<S>)
    {
      forall id :: Tried(seen, c, id)
    }

    /** All operations at positions before `at` have been tried from c. */
    ghost predicate TriedBefore(seen: set<Config<S>>, c: Config<S>, pos: int -> int, at: int)
    {
      forall id :: pos(id) < at ==> Tried(seen, c, id)
    }

    /** The search came through the k-th configuration of the path: it has been seen (unless it is the root),
        and what stands before the operation it left by has been tried. */
    ghost predicate Frame(path: seq<int>, seen: set<Config<S>>, pos: int -> int, k: int)
      requires 0 <= k <= |path|
    {
      && Follow(path[..k]).Some?
      && (k > 0 ==> Follow(path[..k]).value in seen)
      && (k < |path| ==> TriedBefore(seen, Follow(path[..k]).value, pos, pos(path[k])))
    }

    /** c is a configuration on the path, after at least one operation. */
    ghost predicate Stacked(path: seq<int>, c: Config<S>)
    {
      exists k :: 0 < k <= |path| && Follow(path[..k]) == Some(c)
    }

    ghost predicate Seen(path: seq<int>, seen: set<Config<S>>, c: Config<S>)
    {
      c in seen ==> c in Within(n) && (Stacked(path, c) || Closed(seen, c))
    }

    /** The search is at the end of `path`, has seen `seen`, and looks at position `at` next. */
    ghost predicate Searching(path: seq<int>, seen: set<Config<S>>, pos: int -> int, at: int)
    {
      && (forall k :: 0 <= k <= |path| ==> Frame(path, seen, pos, k))
      && (forall c :: Seen(path, seen, c))
      && Follow(path).Some? && Follow(path).value in Within(n)
      && TriedBefore(seen, Follow(path).value, pos, at)
    }
  }

  function Range(n: nat): (r: set<int>)
    ensures |r| == n && forall i :: i in r <==> 0 <= i < n
  {
    if n == 0 then {} else Range(n - 1) + {n - 1}
  }

  lemma {:induction false} SubsetSize<T>(a: set<T>, b: set<T>)
    requires a <= b
    ensures |a| <= |b| && (|a| == |b| ==> a == b)
  {
    if a != {} {
      var x :| x in a;
      SubsetSize(a - {x}, b - {x});
    }
  }

  // ---------------------------------------------------------------------------------------------
  // The space is finite
  // ---------------------------------------------------------------------------------------------

  lemma {:induction false} WithinGrows<S(!new)>(sp: Space<S>, j: nat, k: nat)
    requires j <= k
    ensures sp.Within(j) <= sp.Within(k)
  {
    if j < k { WithinGrows(sp, j, k - 1); }
  }

  lemma StepIn<S(!new)>(sp: Space<S>, cs: set<Config<S>>, c0: Config<S>, id: int)
    requires sp.Proper() && c0 in cs && sp.next(c0, id).Some?
    ensures sp.next(c0, id).value in sp.Successors(cs) && sp.next(c0, id).value.done == c0.done + {id}
    ensures id in Range(sp.n) && id !in c0.done
  {
    assert sp.Advances(c0, id);
  }

  lemma Origin<S(!new)>(sp: Space<S>, cs: set<Config<S>>, c: Config<S>) returns (c0: Config<S>, id: int)
    requires c in sp.Successors(cs)
    ensures c0 in cs && id in Range(sp.n) && sp.next(c0, id) == Some(c)
  {
    c0, id :| c0 in cs && id in Range(sp.n) && sp.next(c0, id).Some? && sp.next(c0, id).value == c;
  }

  /** A configuration of i operations is found within i steps. */
  lemma {:induction false} WithinSize<S(!new)>(sp: Space<S>, k: nat, c: Config<S>)
    requires sp.Proper() && c in sp.Within(k)
    ensures c.done <= Range(sp.n) && |c.done| <= k && c in sp.Within(|c.done|)
  {
    if k > 0 {
      var before := sp.Within(k - 1);
      if c in before {
        WithinSize(sp, k - 1, c);
      } else {
        var c0, id := Origin(sp, before, c);
        WithinSize(sp, k - 1, c0);
        StepIn(sp, sp.Within(|c0.done|), c0, id);
      }
    }
  }

  lemma StepWithin<S(!new)>(sp: Space<S>, c: Config<S>, id: int)
    requires sp.Proper() && c in sp.Within(|c.done|) && c.done <= Range(sp.n) && sp.next(c, id).Some?
    ensures sp.next(c, id).value in sp.Within(|c.done| + 1) && |c.done| < sp.n
  {
    StepIn(sp, sp.Within(|c.done|), c, id);
    SubsetSize(c.done + {id}, Range(sp.n));
  }

  /** n steps reach everything: no step leaves the finite space. */
  lemma WithinClosed<S(!new)>(sp: Space<S>, c: Config<S>, id: int)
    requires sp.Proper() && c in sp.Within(sp.n) && sp.next(c, id).Some?
    ensures sp.next(c, id).value in sp.Within(sp.n)
  {
    hide Space.Proper, Space.Within, Range;
    WithinSize(sp, sp.n, c);
    StepWithin(sp, c, id);
    WithinGrows(sp, |c.done| + 1, sp.n);
  }

  // ---------------------------------------------------------------------------------------------
  // Steps of the search
  // ---------------------------------------------------------------------------------------------

  lemma ClosedGrows<S(!new)>(sp: Space<S>, seen: set<Config<S>>, seen': set<Config<S>>, c: Config<S>)
    requires sp.Closed(seen, c) && seen <= seen'
    ensures sp.Closed(seen', c)
  {
    forall id ensures sp.Tried(seen', c, id) { assert sp.Tried(seen, c, id); }
  }

  lemma TriedBeforeGrows<S(!new)>(sp: Space<S>, seen: set<Config<S>>, seen': set<Config<S>>, c: Config<S>, pos: int -> int, at: int)
    requires sp.TriedBefore(seen, c, pos, at) && seen <= seen'
    ensures sp.TriedBefore(seen', c, pos, at)
  {
    forall id | pos(id) < at ensures sp.Tried(seen', c, id) { assert sp.Tried(seen, c, id); }
  }

  /** At the start nothing is seen. */
  lemma Begins<S(!new)>(sp: Space<S>, pos: int -> int, at: int)
    requires sp.Proper() && forall id :: 0 <= id < sp.n ==> pos(id) >= at
    ensures sp.Searching([], {}, pos, at)
  {
    WithinGrows(sp, 0, sp.n);
    forall id | pos(id) < at
      ensures sp.Tried({}, sp.root, id)
    {
      assert sp.Advances(sp.root, id);
    }
  }

  /** Moving on past an operation that may not be next, or leads to what has been seen. */
  lemma Skips<S(!new)>(sp: Space<S>, path: seq<int>, seen: set<Config<S>>, pos: int -> int, at: int, at': int)
    requires sp.Searching(path, seen, pos, at)
    requires forall id :: at <= pos(id) < at' ==> sp.Tried(seen, sp.Follow(path).value, id)
    ensures sp.Searching(path, seen, pos, at')
  {
    var c := sp.Follow(path).value;
    forall id | pos(id) < at'
      ensures sp.Tried(seen, c, id)
    {
      if pos(id) < at { assert sp.Tried(seen, c, id); }
    }
  }

  lemma FollowNext<S(!new)>(sp: Space<S>, path: seq<int>, id: int)
    requires sp.Follow(path).Some?
    ensures sp.Follow(path + [id]) == sp.next(sp.Follow(path).value, id)
  {
    assert (path + [id])[..|path|] == path;
  }

  /** Going down to a configuration that has not been seen, and starting over at position `at`'. */
  lemma Descends<S(!new)>(sp: Space<S>, path: seq<int>, seen: set<Config<S>>, pos: int -> int, id: int, at': int)
    requires sp.Proper() && sp.Searching(path, seen, pos, pos(id))
    requires sp.next(sp.Follow(path).value, id).Some? && sp.next(sp.Follow(path).value, id).value !in seen
    requires forall x :: 0 <= x < sp.n && pos(x) < at' ==> x in sp.next(sp.Follow(path).value, id).value.done
    ensures sp.Searching(path + [id], seen + {sp.next(sp.Follow(path).value, id).value}, pos, at')
  {
    var c := sp.next(sp.Follow(path).value, id).value;
    var path', seen' := path + [id], seen + {c};
    FollowNext(sp, path, id);
    WithinClosed(sp, sp.Follow(path).value, id);
    assert path'[..|path|] == path && path'[..|path'|] == path';
    forall k | 0 <= k <= |path'|
      ensures sp.Frame(path', seen', pos, k)
    {
      if k <= |path| {
        assert path'[..k] == path[..k];
        assert sp.Frame(path, seen, pos, k);
        assert path[..|path|] == path;
        if k < |path| {
          TriedBeforeGrows(sp, seen, seen', sp.Follow(path[..k]).value, pos, pos(path[k]));
        } else {
          TriedBeforeGrows(sp, seen, seen', sp.Follow(path).value, pos, pos(id));
        }
      }
    }
    forall c'
      ensures sp.Seen(path', seen', c')
    {
      SeenDescends(sp, path, seen, id, c, c');
    }
    forall x | pos(x) < at'
      ensures sp.Tried(seen', c, x)
    {
      assert sp.Advances(c, x);
    }
  }

  lemma SeenDescends<S(!new)>(sp: Space<S>, path: seq<int>, seen: set<Config<S>>, id: int, c: Config<S>, c': Config<S>)
    requires sp.Seen(path, seen, c') && c in sp.Within(sp.n) && sp.Follow(path + [id]) == Some(c)
    ensures sp.Seen(path + [id], seen + {c}, c')
  {
    var path' := path + [id];
    if c' == c {
      assert path'[..|path'|] == path';
    } else if c' in seen {
      StackedLonger(sp, path, id, c');
      if !sp.Stacked(path, c') { ClosedGrows(sp, seen, seen + {c}, c'); }
    }
  }

  /** Coming back up when everything has been tried, and moving on past the operation taken. */
  lemma Returns<S(!new)>(sp: Space<S>, path: seq<int>, seen: set<Config<S>>, pos: int -> int, at: int, at': int)
    requires sp.Searching(path, seen, pos, at) && |path| > 0
    requires sp.Closed(seen, sp.Follow(path).value)
    requires var last := path[|path| - 1];
             forall id :: pos(last) <= pos(id) < at' && id != last ==>
               sp.Tried(seen, sp.Follow(path[..|path| - 1]).value, id)
    ensures sp.Searching(path[..|path| - 1], seen, pos, at')
  {
    var up, last := path[..|path| - 1], path[|path| - 1];
    assert path[..|path|] == path && path[..|up|] == up;
    assert sp.Frame(path, seen, pos, |up|) && sp.Frame(path, seen, pos, |path|);
    var c := sp.Follow(up).value;
    forall k | 0 <= k <= |up|
      ensures sp.Frame(up, seen, pos, k)
    {
      assert sp.Frame(path, seen, pos, k) && up[..k] == path[..k];
    }
    forall c'
      ensures sp.Seen(up, seen, c')
    {
      SeenReturns(sp, path, seen, c');
    }
    forall id | pos(id) < at'
      ensures sp.Tried(seen, c, id)
    {
      if id == last {
        assert sp.next(c, last) == sp.Follow(path);
      } else if pos(id) < pos(last) {
        assert sp.TriedBefore(seen, c, pos, pos(last));
      }
    }
    UpWithin(sp, path, seen, pos);
  }

  lemma UpWithin<S(!new)>(sp: Space<S>, path: seq<int>, seen: set<Config<S>>, pos: int -> int)
    requires |path| > 0 && sp.Frame(path, seen, pos, |path| - 1) && forall c :: sp.Seen(path, seen, c)
    ensures sp.Follow(path[..|path| - 1]).Some? && sp.Follow(path[..|path| - 1]).value in sp.Within(sp.n)
  {
    var up := path[..|path| - 1];
    if |up| > 0 {
      assert sp.Seen(path, seen, sp.Follow(up).value);
    } else {
      WithinGrows(sp, 0, sp.n);
    }
  }

  lemma SeenReturns<S(!new)>(sp: Space<S>, path: seq<int>, seen: set<Config<S>>, c: Config<S>)
    requires |path| > 0 && sp.Seen(path, seen, c) && sp.Follow(path).Some? && sp.Closed(seen, sp.Follow(path).value)
    ensures sp.Seen(path[..|path| - 1], seen, c)
  {
    StackedUp(sp, path, c);
  }

  // ---------------------------------------------------------------------------------------------
  // The end of the search
  // ---------------------------------------------------------------------------------------------

  /** When the root is exhausted, every path has been seen: no linearization was pruned away. */
  lemma {:induction false} ExhaustedSees<S(!new)>(sp: Space<S>, seen: set<Config<S>>, order: seq<int>)
    requires |order| > 0 && sp.Follow(order).Some?
    requires sp.Closed(seen, sp.root) && forall c :: sp.Seen([], seen, c)
    ensures sp.Follow(order).value in seen
  {
    var shorter, id := order[..|order| - 1], order[|order| - 1];
    var c := sp.Follow(shorter).value;
    if |shorter| > 0 {
      ExhaustedSees(sp, seen, shorter);
      assert sp.Seen([], seen, c);
    }
    assert sp.Tried(seen, c, id);
  }

  lemma {:induction false} FollowDone<S(!new)>(sp: Space<S>, path: seq<int>)
    requires sp.Proper() && sp.Follow(path).Some?
    ensures forall id :: id in sp.Follow(path).value.done <==> id in path
    ensures |sp.Follow(path).value.done| == |path|
  {
    if |path| > 0 {
      var up, last := path[..|path| - 1], path[|path| - 1];
      FollowDone(sp, up);
      assert sp.Advances(sp.Follow(up).value, last);
      assert path == up + [last];
    }
  }

  // ---------------------------------------------------------------------------------------------
  // The longest path through each operation
  // ---------------------------------------------------------------------------------------------

  /** The record after a dead end at path: each operation on it gets the path if that is longer. */
  function Noted(longest: seq<Option<seq<int>>>, path: seq<int>): (r: seq<Option<seq<int>>>)
    ensures |r| == |longest|
  {
    seq(|longest|, i requires 0 <= i < |longest| =>
      if i in path && (longest[i].None? || |path| > |longest[i].value|) then Some(path) else longest[i])
  }

  ghost predicate IsPathWith<S(!new)>(sp: Space<S>, longest: seq<Option<seq<int>>>, i: int)
  {
    0 <= i < |longest| && longest[i].Some? ==> i in longest[i].value && sp.Follow(longest[i].value).Some?
  }

  /** Every operation of c has a recorded path at least as long as the way to c. */
  ghost predicate Covers<S>(longest: seq<Option<seq<int>>>, c: Config<S>)
  {
    forall i :: i in c.done ==> 0 <= i < |longest| && longest[i].Some? && |longest[i].value| >= |c.done|
  }

  /** The record is right for everything the search has left behind. */
  ghost predicate Recorded<S(!new)>(sp: Space<S>, longest: seq<Option<seq<int>>>, path: seq<int>, seen: set<Config<S>>)
  {
    && |longest| == sp.n
    && (forall i :: IsPathWith(sp, longest, i))
    && (forall c :: c in seen && !sp.Stacked(path, c) ==> Covers(longest, c))
  }

  lemma RecordedDescends<S(!new)>(sp: Space<S>, longest: seq<Option<seq<int>>>, path: seq<int>, seen: set<Config<S>>, id: int, c: Config<S>)
    requires Recorded(sp, longest, path, seen) && sp.Follow(path + [id]) == Some(c)
    ensures Recorded(sp, longest, path + [id], seen + {c})
  {
    var path' := path + [id];
    assert path'[..|path'|] == path';
    forall c' | c' in seen + {c} && !sp.Stacked(path', c')
      ensures Covers(longest, c')
    {
      StackedLonger(sp, path, id, c');
    }
  }

  lemma StackedLonger<S(!new)>(sp: Space<S>, path: seq<int>, id: int, c: Config<S>)
    ensures sp.Stacked(path, c) ==> sp.Stacked(path + [id], c)
  {
    if sp.Stacked(path, c) {
      var k :| 0 < k <= |path| && sp.Follow(path[..k]) == Some(c);
      assert (path + [id])[..k] == path[..k];
    }
  }

  lemma StackedUp<S(!new)>(sp: Space<S>, path: seq<int>, c: Config<S>)
    requires |path| > 0
    ensures sp.Stacked(path, c) ==> sp.Stacked(path[..|path| - 1], c) || sp.Follow(path) == Some(c)
  {
    if sp.Stacked(path, c) {
      var k :| 0 < k <= |path| && sp.Follow(path[..k]) == Some(c);
      if k == |path| { assert path[..k] == path; } else { assert path[..|path| - 1][..k] == path[..k]; }
    }
  }

  lemma RecordedReturns<S(!new)>(sp: Space<S>, longest: seq<Option<seq<int>>>, path: seq<int>, seen: set<Config<S>>)
    requires sp.Proper() && Recorded(sp, longest, path, seen) && |path| > 0 && sp.Follow(path).Some?
    ensures Recorded(sp, Noted(longest, path), path[..|path| - 1], seen)
  {
    var up, noted := path[..|path| - 1], Noted(longest, path);
    FollowDone(sp, path);
    forall i ensures IsPathWith(sp, noted, i) { assert IsPathWith(sp, longest, i); }
    forall c | c in seen && !sp.Stacked(up, c)
      ensures Covers(noted, c)
    {
      StackedUp(sp, path, c);
      InRange(sp, path);
      if !sp.Stacked(path, c) { assert Covers(longest, c); }
    }
  }

  lemma InRange<S(!new)>(sp: Space<S>, path: seq<int>)
    requires sp.Proper() && sp.Follow(path).Some?
    ensures forall id :: id in path ==> 0 <= id < sp.n
  {
    if |path| > 0 {
      var up, last := path[..|path| - 1], path[|path| - 1];
      InRange(sp, up);
      assert sp.Advances(sp.Follow(up).value, last);
      assert path == up + [last];
    }
  }

  /** After an exhausted search the record holds, for each operation, a path through it of maximum length,
      and none exactly when there is none. */
  lemma RecordMaximal<S(!new)>(sp: Space<S>, longest: seq<Option<seq<int>>>, seen: set<Config<S>>, order: seq<int>, i: int)
    requires sp.Proper() && Recorded(sp, longest, [], seen)
    requires sp.Closed(seen, sp.root) && forall c :: sp.Seen([], seen, c)
    requires sp.Follow(order).Some? && i in order
    ensures 0 <= i < |longest| && longest[i].Some? && |longest[i].value| >= |order|
  {
    ExhaustedSees(sp, seen, order);
    FollowDone(sp, order);
    assert Covers(longest, sp.Follow(order).value);
  }
}
