/** The allocator of shards to groups: it terminates, its result is a function of the assignment and the set of
    groups, loads end within one of each other, and no balanced assignment takes fewer shards from groups that stay. */
module Rebalance {

  /** `shards[i]` is the group of shard i; `held` lists the shards of each live group. */
  datatype Board = Board(shards: seq<int>, held: map<int, seq<int>>)

  // ---------------------------------------------------------------------------------------------
  // Loads
  // ---------------------------------------------------------------------------------------------

  /** How many shards group g has. */
  function Load(shards: seq<int>, g: int): nat
  {
    if |shards| == 0 then 0 else Load(shards[..|shards| - 1], g) + if shards[|shards| - 1] == g then 1 else 0
  }

  lemma {:induction false} LoadUpdate(shards: seq<int>, i: nat, h: int, g: int)
    requires i < |shards|
    ensures Load(shards[i := h], g) == Load(shards, g) - (if shards[i] == g then 1 else 0) + (if h == g then 1 else 0)
  {
    var last := |shards| - 1;
    if i < last {
      LoadUpdate(shards[..last], i, h, g);
      assert shards[i := h][..last] == shards[..last][i := h];
    } else {
      assert shards[i := h][..last] == shards[..last];
    }
  }

  ghost predicate Distinct(gids: seq<int>)
  {
    forall i, j :: 0 <= i < j < |gids| ==> gids[i] != gids[j]
  }

  /** The sum of w over the groups. */
  ghost function Sum(gids: seq<int>, w: int -> int): int
  {
    if |gids| == 0 then 0 else Sum(gids[..|gids| - 1], w) + w(gids[|gids| - 1])
  }

  lemma LastIn(gids: seq<int>)
    requires |gids| > 0
    ensures forall g :: g in gids <==> g in gids[..|gids| - 1] || g == gids[|gids| - 1]
  {
    assert gids == gids[..|gids| - 1] + [gids[|gids| - 1]];
  }

  lemma {:induction false} SumAtMost(gids: seq<int>, v: int -> int, w: int -> int)
    requires forall g :: g in gids ==> v(g) <= w(g)
    ensures Sum(gids, v) <= Sum(gids, w)
    ensures Sum(gids, v) == Sum(gids, w) ==> forall g :: g in gids ==> v(g) == w(g)
  {
    if |gids| > 0 {
      var last := gids[|gids| - 1];
      LastIn(gids);
      assert v(last) <= w(last);
      SumAtMost(gids[..|gids| - 1], v, w);
    }
  }

  lemma SumTight(gids: seq<int>, v: int -> int, w: int -> int, g: int)
    requires (forall x :: x in gids ==> v(x) <= w(x)) && Sum(gids, v) >= Sum(gids, w) && g in gids
    ensures v(g) == w(g)
  {
    SumAtMost(gids, v, w);
  }

  lemma {:induction false} SumPlus(gids: seq<int>, u: int -> int, v: int -> int, w: int -> int)
    requires forall g :: g in gids ==> w(g) == u(g) + v(g)
    ensures Sum(gids, w) == Sum(gids, u) + Sum(gids, v)
  {
    if |gids| > 0 {
      var last := gids[|gids| - 1];
      LastIn(gids);
      assert w(last) == u(last) + v(last);
      SumPlus(gids[..|gids| - 1], u, v, w);
    }
  }

  lemma {:induction false} SumZero(gids: seq<int>, w: int -> int)
    requires forall g :: g in gids ==> w(g) == 0
    ensures Sum(gids, w) == 0
  {
    if |gids| > 0 {
      var last := gids[|gids| - 1];
      LastIn(gids);
      assert w(last) == 0;
      SumZero(gids[..|gids| - 1], w);
    }
  }

  lemma {:induction false} SumOne(gids: seq<int>, w: int -> int, x: int)
    requires Distinct(gids) && forall g :: g in gids && g != x ==> w(g) == 0
    ensures Sum(gids, w) == if x in gids then w(x) else 0
  {
    if |gids| > 0 {
      var last := gids[|gids| - 1];
      assert gids == gids[..|gids| - 1] + [last];
      SumOne(gids[..|gids| - 1], w, x);
    }
  }

  /** How many of the shards are with the groups. */
  function Assigned(shards: seq<int>, gids: seq<int>): nat
  {
    if |shards| == 0 then 0 else Assigned(shards[..|shards| - 1], gids) + if shards[|shards| - 1] in gids then 1 else 0
  }

  ghost function LoadOf(shards: seq<int>): int -> int
  {
    g => Load(shards, g)
  }

  lemma {:induction false} SumLoads(shards: seq<int>, gids: seq<int>)
    requires Distinct(gids)
    ensures Sum(gids, LoadOf(shards)) == Assigned(shards, gids)
  {
    if |shards| == 0 {
      SumZero(gids, LoadOf(shards));
    } else {
      var shorter, last := shards[..|shards| - 1], shards[|shards| - 1];
      var one := g => if g == last then 1 else 0;
      SumLoads(shorter, gids);
      SumPlus(gids, LoadOf(shorter), one, LoadOf(shards));
      SumOne(gids, one, last);
    }
  }

  lemma {:induction false} AllAssigned(shards: seq<int>, gids: seq<int>)
    requires forall i :: 0 <= i < |shards| ==> shards[i] in gids
    ensures Assigned(shards, gids) == |shards|
  {
    if |shards| > 0 { AllAssigned(shards[..|shards| - 1], gids); }
  }

  lemma {:induction false} AssignedAtMost(shards: seq<int>, gids: seq<int>)
    ensures Assigned(shards, gids) <= |shards|
  {
    if |shards| > 0 { AssignedAtMost(shards[..|shards| - 1], gids); }
  }

  // ---------------------------------------------------------------------------------------------
  // What is taken from whom
  // ---------------------------------------------------------------------------------------------

  /** g still has all shards that it had. */
  ghost predicate KeepsAll(before: seq<int>, after: seq<int>, g: int)
  {
    |before| == |after| && forall i :: 0 <= i < |before| && before[i] == g ==> after[i] == g
  }

  /** g has no shard that it did not have. */
  ghost predicate GetsNothing(before: seq<int>, after: seq<int>, g: int)
  {
    |before| == |after| && forall i :: 0 <= i < |after| && after[i] == g ==> before[i] == g
  }

  /** How many shards g had and still has. */
  function Kept(before: seq<int>, after: seq<int>, g: int): nat
    requires |before| == |after|
  {
    if |before| == 0 then 0 else
    var last := |before| - 1;
    Kept(before[..last], after[..last], g) + if before[last] == g && after[last] == g then 1 else 0
  }

  lemma {:induction false} KeptBounds(before: seq<int>, after: seq<int>, g: int)
    requires |before| == |after|
    ensures Kept(before, after, g) <= Load(before, g) && Kept(before, after, g) <= Load(after, g)
    ensures Kept(before, after, g) == Load(before, g) <==> KeepsAll(before, after, g)
    ensures Kept(before, after, g) == Load(after, g) <==> GetsNothing(before, after, g)
  {
    if |before| > 0 {
      var last := |before| - 1;
      KeptBounds(before[..last], after[..last], g);
      assert KeepsAll(before, after, g) <==> KeepsAll(before[..last], after[..last], g) && (before[last] == g ==> after[last] == g);
      assert GetsNothing(before, after, g) <==> GetsNothing(before[..last], after[..last], g) && (after[last] == g ==> before[last] == g);
    }
  }

  /** How many shards were taken from groups that stay. */
  function Taken(before: seq<int>, after: seq<int>, gids: seq<int>): nat
    requires |before| == |after|
  {
    if |before| == 0 then 0 else
    var last := |before| - 1;
    Taken(before[..last], after[..last], gids) + if before[last] in gids && after[last] != before[last] then 1 else 0
  }

  ghost function LossOf(before: seq<int>, after: seq<int>): int -> int
    requires |before| == |after|
  {
    g => Load(before, g) - Kept(before, after, g)
  }

  lemma {:induction false} TakenIsLoss(before: seq<int>, after: seq<int>, gids: seq<int>)
    requires |before| == |after| && Distinct(gids)
    ensures Taken(before, after, gids) == Sum(gids, LossOf(before, after))
  {
    if |before| == 0 {
      SumZero(gids, LossOf(before, after));
    } else {
      var last := |before| - 1;
      var one := g => if g == before[last] && after[last] != g then 1 else 0;
      TakenIsLoss(before[..last], after[..last], gids);
      SumPlus(gids, LossOf(before[..last], after[..last]), one, LossOf(before, after));
      SumOne(gids, one, before[last]);
    }
  }

  // ---------------------------------------------------------------------------------------------
  // The greedy invariant
  // ---------------------------------------------------------------------------------------------

  /** Whoever has received has at most one more than anyone; whoever has given has at least one less than anyone;
      who has given has not received, and has no fewer than who has. */
  ghost predicate Fair(before: seq<int>, after: seq<int>, gids: seq<int>, g: int, h: int)
  {
    g in gids && h in gids ==>
      && (GetsNothing(before, after, g) || Load(after, g) <= Load(after, h) + 1)
      && (KeepsAll(before, after, g) || Load(after, g) + 1 >= Load(after, h))
      && (KeepsAll(before, after, g) || GetsNothing(before, after, g))
      && (KeepsAll(before, after, g) || GetsNothing(before, after, h) || Load(after, h) <= Load(after, g))
  }

  ghost predicate Greedy(before: seq<int>, after: seq<int>, gids: seq<int>)
  {
    |before| == |after| && Distinct(gids) && forall g, h :: Fair(before, after, gids, g, h)
  }

  ghost predicate WithinOne(shards: seq<int>, gids: seq<int>)
  {
    forall g, h :: g in gids && h in gids ==> CloseAt(shards, g, h)
  }

  predicate CloseAt(shards: seq<int>, g: int, h: int)
  {
    Load(shards, g) <= Load(shards, h) + 1
  }

  /** All shards are with the groups, and evenly. */
  ghost predicate Balanced(shards: seq<int>, gids: seq<int>)
  {
    (forall i :: 0 <= i < |shards| ==> shards[i] in gids) && WithinOne(shards, gids)
  }

  /** Taking one shard from g, or from nobody, and giving it to h keeps the invariant, if h has fewest and g has
      most and at least two more. */
  lemma GiveKeepsGreedy(before: seq<int>, after: seq<int>, gids: seq<int>, i: nat, h: int)
    requires Greedy(before, after, gids) && i < |after| && h in gids
    requires forall x :: x in gids ==> Load(after, h) <= Load(after, x)
    requires var g := after[i];
             if g in gids then (forall x :: x in gids ==> Load(after, x) <= Load(after, g)) && Load(after, g) >= Load(after, h) + 2
             else before[i] == g && forall x :: x in gids ==> KeepsAll(before, after, x)
    ensures Greedy(before, after[i := h], gids)
  {
    var g, after' := after[i], after[i := h];
    assert Fair(before, after, gids, h, h);
    forall x, y
      ensures Fair(before, after', gids, x, y)
    {
      assert Fair(before, after, gids, x, y);
      assert Fair(before, after, gids, h, g) && Fair(before, after, gids, g, h);
      assert Fair(before, after, gids, y, h) && Fair(before, after, gids, x, g);
      LoadUpdate(after, i, h, x);
      LoadUpdate(after, i, h, y);
      GiveMarks(before, after, i, h, x);
      GiveMarks(before, after, i, h, y);
    }
  }

  /** Only the giver's and the receiver's marks change. */
  lemma GiveMarks(before: seq<int>, after: seq<int>, i: nat, h: int, x: int)
    requires |before| == |after| && i < |after| && h != after[i]
    ensures x != after[i] ==> (KeepsAll(before, after, x) ==> KeepsAll(before, after[i := h], x))
    ensures x != h ==> (GetsNothing(before, after, x) ==> GetsNothing(before, after[i := h], x))
  {
  }

  // ---------------------------------------------------------------------------------------------
  // Optimality
  // ---------------------------------------------------------------------------------------------

  lemma {:induction false} Least(shards: seq<int>, gids: seq<int>) returns (x: int)
    requires |gids| > 0
    ensures x in gids && forall g :: g in gids ==> Load(shards, x) <= Load(shards, g)
  {
    var last := gids[|gids| - 1];
    LastIn(gids);
    if |gids| == 1 {
      x := last;
    } else {
      x := Least(shards, gids[..|gids| - 1]);
      if Load(shards, last) < Load(shards, x) { x := last; }
    }
  }

  lemma EqualTotals(after: seq<int>, other: seq<int>, gids: seq<int>)
    requires Distinct(gids) && |after| == |other| && Balanced(after, gids) && Balanced(other, gids)
    ensures Sum(gids, LoadOf(after)) == Sum(gids, LoadOf(other)) == |after|
  {
    SumLoads(after, gids);
    SumLoads(other, gids);
    AllAssigned(after, gids);
    AllAssigned(other, gids);
  }

  /** Two balanced assignments have the same least load or one more, for each group. */
  lemma SameFloor(after: seq<int>, other: seq<int>, gids: seq<int>, x: int, g: int)
    requires Distinct(gids) && |after| == |other| && Balanced(after, gids) && Balanced(other, gids)
    requires x in gids && g in gids && forall h :: h in gids ==> Load(after, x) <= Load(after, h)
    ensures Load(after, x) <= Load(other, g) <= Load(after, x) + 1
    ensures Load(after, x) <= Load(after, g) <= Load(after, x) + 1
  {
    EqualTotals(after, other, gids);
    assert CloseAt(after, g, x);
    if Load(other, g) > Load(after, x) + 1 {
      forall h | h in gids
        ensures LoadOf(after)(h) <= LoadOf(other)(h)
      {
        assert CloseAt(other, g, h) && CloseAt(after, h, x);
      }
      SumTight(gids, LoadOf(after), LoadOf(other), g);
    }
    if Load(other, g) < Load(after, x) {
      forall h | h in gids
        ensures LoadOf(other)(h) <= LoadOf(after)(h)
      {
        assert CloseAt(other, h, g);
      }
      SumTight(gids, LoadOf(other), LoadOf(after), g);
    }
  }

  /** If whoever gave ends with the larger load, each group loses no more than in any balanced assignment. */
  lemma LossAtMost(before: seq<int>, after: seq<int>, other: seq<int>, gids: seq<int>, x: int, g: int)
    requires Greedy(before, after, gids) && Balanced(after, gids) && |other| == |after| && Balanced(other, gids)
    requires x in gids && g in gids && forall h :: h in gids ==> Load(after, x) <= Load(after, h)
    requires KeepsAll(before, after, g) || Load(after, g) > Load(after, x)
    ensures LossOf(before, after)(g) <= LossOf(before, other)(g)
  {
    SameFloor(after, other, gids, x, g);
    KeptBounds(before, after, g);
    KeptBounds(before, other, g);
    assert Fair(before, after, gids, g, g);
  }

  /** If whoever received ends with the smaller load, what a group loses and has is no more than in any balanced assignment. */
  lemma LossAndLoadAtMost(before: seq<int>, after: seq<int>, other: seq<int>, gids: seq<int>, x: int, g: int)
    requires Greedy(before, after, gids) && Balanced(after, gids) && |other| == |after| && Balanced(other, gids)
    requires x in gids && g in gids && forall h :: h in gids ==> Load(after, x) <= Load(after, h)
    requires GetsNothing(before, after, g) || Load(after, g) == Load(after, x)
    ensures LossOf(before, after)(g) + Load(after, g) <= LossOf(before, other)(g) + Load(other, g)
  {
    SameFloor(after, other, gids, x, g);
    KeptBounds(before, after, g);
    KeptBounds(before, other, g);
    assert Fair(before, after, gids, g, g);
  }

  /** No balanced assignment takes fewer shards from groups that stay. */
  lemma Optimal(before: seq<int>, after: seq<int>, gids: seq<int>, other: seq<int>)
    requires |gids| > 0 && Greedy(before, after, gids) && Balanced(after, gids) && |other| == |after| && Balanced(other, gids)
    ensures Taken(before, after, gids) <= Taken(before, other, gids)
  {
    var x := Least(after, gids);
    TakenIsLoss(before, after, gids);
    TakenIsLoss(before, other, gids);
    if forall d :: d in gids && !KeepsAll(before, after, d) ==> Load(after, d) > Load(after, x) {
      forall g | g in gids
        ensures LossOf(before, after)(g) <= LossOf(before, other)(g)
      {
        LossAtMost(before, after, other, gids, x, g);
      }
      SumAtMost(gids, LossOf(before, after), LossOf(before, other));
    } else {
      var d :| d in gids && !KeepsAll(before, after, d) && Load(after, d) <= Load(after, x);
      EqualTotals(after, other, gids);
      var u, v := g => LossOf(before, after)(g) + Load(after, g), g => LossOf(before, other)(g) + Load(other, g);
      SumPlus(gids, LossOf(before, after), LoadOf(after), u);
      SumPlus(gids, LossOf(before, other), LoadOf(other), v);
      forall g | g in gids
        ensures u(g) <= v(g)
      {
        assert Fair(before, after, gids, d, g);
        LossAndLoadAtMost(before, after, other, gids, x, g);
      }
      SumAtMost(gids, u, v);
    }
  }

  /** Whoever gave had at least two more than whoever received. */
  lemma GiverHadMore(before: seq<int>, after: seq<int>, gids: seq<int>, d: int, r: int)
    requires Greedy(before, after, gids) && d in gids && r in gids
    requires !KeepsAll(before, after, d) && !GetsNothing(before, after, r)
    ensures Load(before, d) >= Load(before, r) + 2
  {
    assert Fair(before, after, gids, d, r) && Fair(before, after, gids, r, r) && Fair(before, after, gids, d, d);
    KeptBounds(before, after, d);
    KeptBounds(before, after, r);
  }

  lemma NobodyGains(before: seq<int>, after: seq<int>, gids: seq<int>)
    requires |before| == |after| && forall g :: g in gids ==> GetsNothing(before, after, g)
    ensures forall g :: g in gids ==> LoadOf(after)(g) <= LoadOf(before)(g)
  {
    forall g | g in gids ensures LoadOf(after)(g) <= LoadOf(before)(g) { KeptBounds(before, after, g); }
  }

  lemma NobodyLoses(before: seq<int>, after: seq<int>, gids: seq<int>)
    requires |before| == |after| && forall g :: g in gids ==> KeepsAll(before, after, g)
    ensures forall g :: g in gids ==> LoadOf(before)(g) <= LoadOf(after)(g)
  {
    forall g | g in gids ensures LoadOf(before)(g) <= LoadOf(after)(g) { KeptBounds(before, after, g); }
  }

  /** If a group gave, another received. */
  lemma SomeoneReceived(before: seq<int>, after: seq<int>, gids: seq<int>, d: int) returns (r: int)
    requires Greedy(before, after, gids) && d in gids && !KeepsAll(before, after, d)
    requires forall i :: 0 <= i < |after| ==> after[i] in gids
    ensures r in gids && !GetsNothing(before, after, r)
  {
    SumLoads(before, gids);
    SumLoads(after, gids);
    AllAssigned(after, gids);
    AssignedAtMost(before, gids);
    if forall g :: g in gids ==> GetsNothing(before, after, g) {
      NobodyGains(before, after, gids);
      SumTight(gids, LoadOf(after), LoadOf(before), d);
      KeptBounds(before, after, d);
    }
    r :| r in gids && !GetsNothing(before, after, r);
  }

  /** If a group received and nothing was unassigned, another gave. */
  lemma SomeoneGave(before: seq<int>, after: seq<int>, gids: seq<int>, r: int) returns (d: int)
    requires Greedy(before, after, gids) && r in gids && !GetsNothing(before, after, r)
    requires forall i :: 0 <= i < |before| ==> before[i] in gids
    ensures d in gids && !KeepsAll(before, after, d)
  {
    SumLoads(before, gids);
    SumLoads(after, gids);
    AllAssigned(before, gids);
    AssignedAtMost(after, gids);
    if forall g :: g in gids ==> KeepsAll(before, after, g) {
      NobodyLoses(before, after, gids);
      SumTight(gids, LoadOf(before), LoadOf(after), r);
      KeptBounds(before, after, r);
    }
    d :| d in gids && !KeepsAll(before, after, d);
  }

  lemma CloseHadNoGap(shards: seq<int>, gids: seq<int>, g: int, h: int)
    requires WithinOne(shards, gids) && g in gids && h in gids
    ensures Load(shards, g) <= Load(shards, h) + 1
  {
    assert CloseAt(shards, g, h);
  }

  /** After a Leave from a balanced assignment, no surviving group loses a shard. */
  lemma LeaveMovesNoSurvivor(before: seq<int>, after: seq<int>, gids: seq<int>, oldGids: seq<int>, g: int)
    requires Greedy(before, after, gids) && Balanced(after, gids)
    requires WithinOne(before, oldGids) && (forall h :: h in gids ==> h in oldGids) && g in gids
    ensures KeepsAll(before, after, g)
  {
    if !KeepsAll(before, after, g) {
      var r := SomeoneReceived(before, after, gids, g);
      CloseHadNoGap(before, oldGids, g, r);
      GiverHadMore(before, after, gids, g, r);
    }
  }

  /** After a Join to a balanced assignment, no old group gets a shard. */
  lemma JoinGivesOldNothing(before: seq<int>, after: seq<int>, gids: seq<int>, oldGids: seq<int>, g: int)
    requires Greedy(before, after, gids) && Balanced(before, oldGids)
    requires (forall h :: h in oldGids ==> h in gids) && g in oldGids
    ensures GetsNothing(before, after, g)
  {
    if !GetsNothing(before, after, g) {
      forall i | 0 <= i < |before|
        ensures before[i] in gids
      {
        var h := before[i];
        assert h in oldGids;
      }
      var d := SomeoneGave(before, after, gids, g);
      HasLoad(before, d);
      if d in oldGids { CloseHadNoGap(before, oldGids, d, g); }
      GiverHadMore(before, after, gids, d, g);
    }
  }

  lemma {:induction false} HasLoad(shards: seq<int>, g: int)
    ensures Load(shards, g) > 0 <==> g in shards
  {
    if |shards| > 0 {
      HasLoad(shards[..|shards| - 1], g);
      assert shards == shards[..|shards| - 1] + [shards[|shards| - 1]];
    }
  }
}
