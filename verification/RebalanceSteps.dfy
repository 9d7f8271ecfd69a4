/** What the allocator computes, step by step, as functions of the assignment and the sorted groups. */
module RebalanceSteps {
  import opened Rebalance

  /** The first of the first k groups with fewest shards. */
  function MinGid(gids: seq<int>, held: map<int, seq<int>>, k: nat): (m: int)
    requires 0 < k <= |gids| && forall g :: g in gids ==> g in held
    ensures m in gids[..k]
  {
    if k == 1 then gids[0] else
    var m := MinGid(gids, held, k - 1);
    if |held[gids[k - 1]]| < |held[m]| then gids[k - 1] else m
  }

  /** The first of the first k groups with most shards. */
  function MaxGid(gids: seq<int>, held: map<int, seq<int>>, k: nat): (m: int)
    requires 0 < k <= |gids| && forall g :: g in gids ==> g in held
    ensures m in gids[..k]
  {
    if k == 1 then gids[0] else
    var m := MaxGid(gids, held, k - 1);
    if |held[gids[k - 1]]| > |held[m]| then gids[k - 1] else m
  }

  lemma {:induction false} MinIsLeast(gids: seq<int>, held: map<int, seq<int>>, k: nat)
    requires 0 < k <= |gids| && forall g :: g in gids ==> g in held
    ensures forall j :: 0 <= j < k ==> |held[MinGid(gids, held, k)]| <= |held[gids[j]]|
  {
    if k > 1 { MinIsLeast(gids, held, k - 1); }
  }

  /** Of the groups with fewest it is the first. */
  lemma {:induction false} MinIsFirst(gids: seq<int>, held: map<int, seq<int>>, k: nat) returns (i: nat)
    requires 0 < k <= |gids| && forall g :: g in gids ==> g in held
    ensures i < k && gids[i] == MinGid(gids, held, k) && FirstLeast(gids, held, k, i)
  {
    i := 0;
    if k > 1 {
      i := MinIsFirst(gids, held, k - 1);
      if |held[gids[k - 1]]| < |held[gids[i]]| { i := k - 1; }
    }
  }

  ghost predicate FirstLeast(gids: seq<int>, held: map<int, seq<int>>, k: nat, i: nat)
    requires i < k <= |gids| && forall j :: 0 <= j < |gids| ==> gids[j] in held
  {
    && (forall j :: 0 <= j < i ==> |held[gids[j]]| > |held[gids[i]]|)
    && (forall j :: i <= j < k ==> |held[gids[j]]| >= |held[gids[i]]|)
  }

  /** Of the groups with most it is the first. */
  lemma {:induction false} MaxIsFirst(gids: seq<int>, held: map<int, seq<int>>, k: nat) returns (i: nat)
    requires 0 < k <= |gids| && forall g :: g in gids ==> g in held
    ensures i < k && gids[i] == MaxGid(gids, held, k) && FirstMost(gids, held, k, i)
  {
    i := 0;
    if k > 1 {
      i := MaxIsFirst(gids, held, k - 1);
      if |held[gids[k - 1]]| > |held[gids[i]]| { i := k - 1; }
    }
  }

  ghost predicate FirstMost(gids: seq<int>, held: map<int, seq<int>>, k: nat, i: nat)
    requires i < k <= |gids| && forall j :: 0 <= j < |gids| ==> gids[j] in held
  {
    && (forall j :: 0 <= j < i ==> |held[gids[j]]| < |held[gids[i]]|)
    && (forall j :: i <= j < k ==> |held[gids[j]]| <= |held[gids[i]]|)
  }

  lemma {:induction false} MaxIsMost(gids: seq<int>, held: map<int, seq<int>>, k: nat)
    requires 0 < k <= |gids| && forall g :: g in gids ==> g in held
    ensures forall j :: 0 <= j < k ==> |held[MaxGid(gids, held, k)]| >= |held[gids[j]]|
  {
    if k > 1 { MaxIsMost(gids, held, k - 1); }
  }

  // ---------------------------------------------------------------------------------------------
  // The board
  // ---------------------------------------------------------------------------------------------

  /** The list of g has all shards of g, and no others. */
  ghost predicate HeldOk(board: Board, g: int)
  {
    && g in board.held && |board.held[g]| == Load(board.shards, g)
    && (forall j :: 0 <= j < |board.held[g]| ==> var i := board.held[g][j]; 0 <= i < |board.shards| && board.shards[i] == g)
    && (forall j, k :: 0 <= j < k < |board.held[g]| ==> board.held[g][j] != board.held[g][k])
  }

  ghost predicate BoardOk(gids: seq<int>, board: Board)
  {
    |gids| > 0 && Distinct(gids) && forall g :: g in gids ==> HeldOk(board, g)
  }

  /** The shards below n by group. */
  function Inventory(shards: seq<int>, gids: seq<int>, n: nat): (held: map<int, seq<int>>)
    requires n <= |shards|
    ensures forall g :: g in gids ==> g in held
  {
    if n == 0 then map g | g in gids :: [] else
    var held := Inventory(shards, gids, n - 1);
    if shards[n - 1] in gids then held[shards[n - 1] := held[shards[n - 1]] + [n - 1]] else held
  }

  /** The shards below n that no group has. */
  function Unassigned(shards: seq<int>, gids: seq<int>, n: nat): (u: seq<int>)
    requires n <= |shards|
    ensures forall j :: 0 <= j < |u| ==> 0 <= u[j] < n && shards[u[j]] !in gids
    ensures forall j, k :: 0 <= j < k < |u| ==> u[j] < u[k]
    ensures forall i :: 0 <= i < n && shards[i] !in gids ==> i in u
  {
    if n == 0 then [] else
    Unassigned(shards, gids, n - 1) + if shards[n - 1] in gids then [] else [n - 1]
  }

  lemma {:induction false} InventoryOk(shards: seq<int>, gids: seq<int>, n: nat)
    requires n <= |shards| && |gids| > 0 && Distinct(gids)
    ensures forall g :: g in gids ==> HeldOk(Board(shards[..n], Inventory(shards, gids, n)), g)
  {
    if n > 0 {
      InventoryOk(shards, gids, n - 1);
      var before := Board(shards[..n - 1], Inventory(shards, gids, n - 1));
      assert shards[..n][..n - 1] == shards[..n - 1];
      forall g | g in gids
        ensures HeldOk(Board(shards[..n], Inventory(shards, gids, n)), g)
      {
        assert HeldOk(before, g);
      }
    }
  }

  /** Gives shard i to h, at the end of its list. */
  function Give(board: Board, i: nat, h: int): Board
    requires h in board.held && i < |board.shards|
  {
    Board(board.shards[i := h], board.held[h := board.held[h] + [i]])
  }

  /** Gives the unassigned shards, one at a time, to a group that has fewest. */
  function Place(gids: seq<int>, board: Board, u: seq<int>): (b: Board)
    requires |gids| > 0 && (forall g :: g in gids ==> g in board.held) && forall j :: 0 <= j < |u| ==> 0 <= u[j] < |board.shards|
    ensures |b.shards| == |board.shards| && forall g :: g in gids ==> g in b.held
    decreases |u|
  {
    if |u| == 0 then board else
    Place(gids, Give(board, u[0], MinGid(gids, board.held, |gids|)), u[1..])
  }

  lemma GiveOk(gids: seq<int>, board: Board, i: nat, h: int)
    requires BoardOk(gids, board) && i < |board.shards| && board.shards[i] !in gids && h in gids
    ensures BoardOk(gids, Give(board, i, h))
  {
    var board' := Give(board, i, h);
    forall g | g in gids
      ensures HeldOk(board', g)
    {
      assert HeldOk(board, g) && HeldOk(board, h);
      LoadUpdate(board.shards, i, h, g);
    }
  }

  lemma LeastLoad(gids: seq<int>, board: Board, x: int)
    requires BoardOk(gids, board) && x in gids
    ensures Load(board.shards, MinGid(gids, board.held, |gids|)) <= Load(board.shards, x)
  {
    var m := MinGid(gids, board.held, |gids|);
    MinIsLeast(gids, board.held, |gids|);
    assert HeldOk(board, m) && HeldOk(board, x);
  }

  lemma MostLoad(gids: seq<int>, board: Board, x: int)
    requires BoardOk(gids, board) && x in gids
    ensures Load(board.shards, MaxGid(gids, board.held, |gids|)) >= Load(board.shards, x)
  {
    var m := MaxGid(gids, board.held, |gids|);
    MaxIsMost(gids, board.held, |gids|);
    assert HeldOk(board, m) && HeldOk(board, x);
  }

  /** Nothing has been taken from a group, and what is still unassigned is as it was. */
  ghost predicate Placing(before: seq<int>, gids: seq<int>, board: Board, u: seq<int>)
  {
    && BoardOk(gids, board) && Greedy(before, board.shards, gids)
    && (forall x :: x in gids ==> KeepsAll(before, board.shards, x))
    && (forall j :: 0 <= j < |u| ==> 0 <= u[j] < |before| && before[u[j]] == board.shards[u[j]] && before[u[j]] !in gids)
    && (forall j, k :: 0 <= j < k < |u| ==> u[j] < u[k])
    && (forall i :: 0 <= i < |before| && board.shards[i] !in gids ==> i in u)
  }

  lemma PlaceOne(before: seq<int>, gids: seq<int>, board: Board, u: seq<int>)
    requires Placing(before, gids, board, u) && |u| > 0
    ensures Placing(before, gids, Give(board, u[0], MinGid(gids, board.held, |gids|)), u[1..])
  {
    var h := MinGid(gids, board.held, |gids|);
    forall x | x in gids
      ensures Load(board.shards, h) <= Load(board.shards, x)
    {
      LeastLoad(gids, board, x);
    }
    GiveKeepsGreedy(before, board.shards, gids, u[0], h);
    GiveOk(gids, board, u[0], h);
    PlacedRest(before, gids, board, u, h);
  }

  lemma PlacedRest(before: seq<int>, gids: seq<int>, board: Board, u: seq<int>, h: int)
    requires Placing(before, gids, board, u) && |u| > 0 && h in gids
    ensures var shards, v := Give(board, u[0], h).shards, u[1..];
            && (forall x :: x in gids ==> KeepsAll(before, shards, x))
            && (forall j :: 0 <= j < |v| ==> 0 <= v[j] < |before| && before[v[j]] == shards[v[j]] && before[v[j]] !in gids)
            && (forall i :: 0 <= i < |before| && shards[i] !in gids ==> i in v)
  {
    hide Load, Fair, HeldOk;
    assert u == [u[0]] + u[1..];
  }

  lemma {:induction false} PlaceOk(before: seq<int>, gids: seq<int>, board: Board, u: seq<int>)
    requires Placing(before, gids, board, u)
    ensures Placing(before, gids, Place(gids, board, u), [])
    decreases |u|
  {
    if |u| > 0 {
      PlaceOne(before, gids, board, u);
      PlaceOk(before, gids, Give(board, u[0], MinGid(gids, board.held, |gids|)), u[1..]);
    }
  }

  // ---------------------------------------------------------------------------------------------
  // Levelling
  // ---------------------------------------------------------------------------------------------

  /** 1 + 2 + ... + n */
  function Triangle(n: nat): nat
  {
    if n == 0 then 0 else Triangle(n - 1) + n
  }

  ghost function WeightOf(shards: seq<int>): int -> int
  {
    g => Triangle(Load(shards, g))
  }

  ghost function Weight(gids: seq<int>, shards: seq<int>): nat
  {
    WeightPositive(gids, shards);
    Sum(gids, WeightOf(shards))
  }

  lemma {:induction false} WeightPositive(gids: seq<int>, shards: seq<int>)
    ensures Sum(gids, WeightOf(shards)) >= 0
  {
    if |gids| > 0 { WeightPositive(gids[..|gids| - 1], shards); }
  }

  /** Taking from a group and giving to one with at least two fewer makes the weight smaller. */
  lemma WeightDrops(gids: seq<int>, shards: seq<int>, i: nat, h: int)
    requires Distinct(gids) && i < |shards| && shards[i] in gids && h in gids && Load(shards, shards[i]) >= Load(shards, h) + 2
    ensures Weight(gids, shards[i := h]) < Weight(gids, shards)
  {
    hide Load, Distinct;
    var g, shards' := shards[i], shards[i := h];
    var a: int, b: int := Load(shards, g), Load(shards, h);
    var less: int -> int, more: int -> int := x => if x == g then -a else 0, x => if x == h then b + 1 else 0;
    var both: int -> int := x => less(x) + more(x);
    SumOne(gids, less, g);
    SumOne(gids, more, h);
    SumPlus(gids, less, more, both);
    forall x | x in gids
      ensures WeightOf(shards')(x) == WeightOf(shards)(x) + both(x)
    {
      LoadUpdate(shards, i, h, x);
      assert x == g ==> Triangle(a - 1) + a == Triangle(a);
    }
    SumPlus(gids, WeightOf(shards), both, WeightOf(shards'));
  }

  /** Moves the first shard in the list of g to h. */
  function MoveFirst(board: Board, g: int, h: int): Board
    requires g in board.held && h in board.held && |board.held[g]| > 0 && 0 <= board.held[g][0] < |board.shards|
  {
    var i, held := board.held[g][0], board.held[g := board.held[g][1..]];
    Board(board.shards[i := h], held[h := held[h] + [i]])
  }

  lemma MoveFirstOk(gids: seq<int>, board: Board, g: int, h: int)
    requires BoardOk(gids, board) && g in gids && h in gids && g != h && Load(board.shards, g) > 0
    ensures HeldOk(board, g) && HeldOk(board, h)
    ensures BoardOk(gids, MoveFirst(board, g, h))
  {
    assert HeldOk(board, g) && HeldOk(board, h);
    var i, board' := board.held[g][0], MoveFirst(board, g, h);
    forall x | x in gids
      ensures HeldOk(board', x)
    {
      assert HeldOk(board, x);
      LoadUpdate(board.shards, i, h, x);
    }
  }

  /** Whether someone has at least two more than someone else; then a step makes the weight smaller. */
  lemma StepDrops(gids: seq<int>, board: Board)
    requires BoardOk(gids, board)
    requires var g, h := MaxGid(gids, board.held, |gids|), MinGid(gids, board.held, |gids|);
             |board.held[g]| > |board.held[h]| + 1
    ensures var g, h := MaxGid(gids, board.held, |gids|), MinGid(gids, board.held, |gids|);
            && |board.held[g]| > 0 && 0 <= board.held[g][0] < |board.shards| && board.shards[board.held[g][0]] == g
            && BoardOk(gids, MoveFirst(board, g, h))
            && Weight(gids, MoveFirst(board, g, h).shards) < Weight(gids, board.shards)
  {
    var g, h := MaxGid(gids, board.held, |gids|), MinGid(gids, board.held, |gids|);
    assert HeldOk(board, g) && HeldOk(board, h);
    MoveFirstOk(gids, board, g, h);
    WeightDrops(gids, board.shards, board.held[g][0], h);
  }

  /** Takes from who has most and gives to who has fewest, until they are within one of each other. */
  ghost function Level(gids: seq<int>, board: Board): Board
    requires BoardOk(gids, board)
    decreases Weight(gids, board.shards)
  {
    var g, h := MaxGid(gids, board.held, |gids|), MinGid(gids, board.held, |gids|);
    if |board.held[g]| <= |board.held[h]| + 1 then board else
    StepDrops(gids, board);
    Level(gids, MoveFirst(board, g, h))
  }

  ghost predicate Levelling(before: seq<int>, gids: seq<int>, board: Board)
  {
    && BoardOk(gids, board) && Greedy(before, board.shards, gids)
    && forall i :: 0 <= i < |board.shards| ==> board.shards[i] in gids
  }

  lemma LevelOne(before: seq<int>, gids: seq<int>, board: Board)
    requires Levelling(before, gids, board)
    requires var g, h := MaxGid(gids, board.held, |gids|), MinGid(gids, board.held, |gids|);
             |board.held[g]| > |board.held[h]| + 1
    ensures var g, h := MaxGid(gids, board.held, |gids|), MinGid(gids, board.held, |gids|);
            && |board.held[g]| > 0 && 0 <= board.held[g][0] < |board.shards|
            && Levelling(before, gids, MoveFirst(board, g, h))
  {
    var g, h := MaxGid(gids, board.held, |gids|), MinGid(gids, board.held, |gids|);
    StepDrops(gids, board);
    assert HeldOk(board, g) && HeldOk(board, h);
    forall x | x in gids
      ensures Load(board.shards, h) <= Load(board.shards, x) <= Load(board.shards, g)
    {
      LeastLoad(gids, board, x);
      MostLoad(gids, board, x);
    }
    GiveKeepsGreedy(before, board.shards, gids, board.held[g][0], h);
  }

  lemma {:induction false} LevelOk(before: seq<int>, gids: seq<int>, board: Board)
    requires Levelling(before, gids, board)
    ensures Levelling(before, gids, Level(gids, board)) && Balanced(Level(gids, board).shards, gids)
    decreases Weight(gids, board.shards)
  {
    var g, h := MaxGid(gids, board.held, |gids|), MinGid(gids, board.held, |gids|);
    if |board.held[g]| <= |board.held[h]| + 1 {
      LevelEnds(gids, board);
    } else {
      StepDrops(gids, board);
      LevelOne(before, gids, board);
      LevelOk(before, gids, MoveFirst(board, g, h));
    }
  }

  lemma LevelEnds(gids: seq<int>, board: Board)
    requires BoardOk(gids, board)
    requires var g, h := MaxGid(gids, board.held, |gids|), MinGid(gids, board.held, |gids|);
             |board.held[g]| <= |board.held[h]| + 1
    ensures WithinOne(board.shards, gids)
  {
    var g, h := MaxGid(gids, board.held, |gids|), MinGid(gids, board.held, |gids|);
    assert HeldOk(board, g) && HeldOk(board, h);
    forall x, y | x in gids && y in gids
      ensures CloseAt(board.shards, x, y)
    {
      MostLoad(gids, board, x);
      LeastLoad(gids, board, y);
    }
  }

  // ---------------------------------------------------------------------------------------------
  // The whole
  // ---------------------------------------------------------------------------------------------

  ghost function Placed(shards: seq<int>, gids: seq<int>): Board
    requires |gids| > 0
  {
    Place(gids, Board(shards, Inventory(shards, gids, |shards|)), Unassigned(shards, gids, |shards|))
  }

  lemma StartPlacing(shards: seq<int>, gids: seq<int>)
    requires |gids| > 0 && Distinct(gids)
    ensures Placing(shards, gids, Board(shards, Inventory(shards, gids, |shards|)), Unassigned(shards, gids, |shards|))
  {
    InventoryOk(shards, gids, |shards|);
    assert shards[..|shards|] == shards;
  }

  lemma PlacedOk(shards: seq<int>, gids: seq<int>)
    requires |gids| > 0 && Distinct(gids)
    ensures Levelling(shards, gids, Placed(shards, gids))
  {
    StartPlacing(shards, gids);
    PlaceOk(shards, gids, Board(shards, Inventory(shards, gids, |shards|)), Unassigned(shards, gids, |shards|));
  }

  /** The new assignment, from the old one and the live groups in ascending order. */
  ghost function RebalanceOf(shards: seq<int>, gids: seq<int>): seq<int>
    requires Distinct(gids)
  {
    if |gids| == 0 then seq(|shards|, _ => 0) else
    PlacedOk(shards, gids);
    Level(gids, Placed(shards, gids)).shards
  }

  /** All shards end with live groups and evenly, and no balanced assignment takes fewer from groups that stay. */
  lemma RebalanceOptimal(shards: seq<int>, gids: seq<int>, other: seq<int>)
    requires Distinct(gids) && |gids| > 0 && |other| == |shards| && Balanced(other, gids)
    ensures var after := RebalanceOf(shards, gids);
            && |after| == |shards| && Balanced(after, gids) && Greedy(shards, after, gids)
            && Taken(shards, after, gids) <= Taken(shards, other, gids)
  {
    RebalanceGreedy(shards, gids);
    Optimal(shards, RebalanceOf(shards, gids), gids, other);
  }

  lemma RebalanceGreedy(shards: seq<int>, gids: seq<int>)
    requires Distinct(gids) && |gids| > 0
    ensures var after := RebalanceOf(shards, gids);
            |after| == |shards| && Balanced(after, gids) && Greedy(shards, after, gids)
  {
    PlacedOk(shards, gids);
    LevelOk(shards, gids, Placed(shards, gids));
  }
}
