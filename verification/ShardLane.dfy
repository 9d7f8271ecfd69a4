/** The life of one shard across all groups. The groups follow one chain of configurations, each at its own pace;
    `epoch` is the configuration in which the shard was last handed over. */
module ShardLane {
  import opened ShardHandlers

  /** For each group, the configuration it has reached and its copy of the shard. */
  datatype Lane = Lane(nums: map<int, nat>, cells: map<int, Shard>)

  // ---------------------------------------------------------------------------------------------
  // Owners
  // ---------------------------------------------------------------------------------------------

  /** The last group that the shard was assigned to, up to configuration n; 0 if there was none. */
  function Owner(owners: seq<int>, n: nat): int
    requires n < |owners|
  {
    if owners[n] != 0 then owners[n] else if n == 0 then 0 else Owner(owners, n - 1)
  }

  /** After a time with no group, the shard goes back to the group that had it last. */
  ghost predicate CleanAt(owners: seq<int>, n: int)
  {
    0 <= n && n + 1 < |owners| && owners[n] == 0 && owners[n + 1] != 0 ==>
      Owner(owners, n) == 0 || Owner(owners, n) == owners[n + 1]
  }

  ghost predicate Clean(owners: seq<int>)
  {
    |owners| > 0 && owners[0] == 0 && forall n :: CleanAt(owners, n)
  }

  ghost predicate Changes(owners: seq<int>, n: int)
  {
    0 < n < |owners| && Owner(owners, n) != Owner(owners, n - 1)
  }

  /** Configuration n moves the shard from one group to another. */
  ghost predicate TransferAt(owners: seq<int>, n: int)
  {
    Changes(owners, n) && Owner(owners, n - 1) != 0
  }

  /** Configuration n takes the shard away from group g. */
  ghost predicate Left(owners: seq<int>, g: int, n: int)
  {
    Changes(owners, n) && Owner(owners, n - 1) == g
  }

  /** The owner of configuration m had the shard by the time of `epoch`. */
  ghost predicate Reached(owners: seq<int>, epoch: nat, m: int)
  {
    forall x :: epoch < x <= m ==> !Changes(owners, x)
  }

  /** In a clean chain the owner changes only from assignment to assignment. */
  lemma CleanChange(owners: seq<int>, n: int)
    requires Clean(owners) && Changes(owners, n)
    ensures owners[n] == Owner(owners, n) != 0 && owners[n - 1] == Owner(owners, n - 1)
  {
    assert CleanAt(owners, n - 1);
  }

  lemma {:induction false} SameOwner(owners: seq<int>, a: nat, b: nat)
    requires a <= b < |owners| && Reached(owners, a, b)
    ensures Owner(owners, a) == Owner(owners, b)
    decreases b
  {
    if a < b {
      SameOwner(owners, a, b - 1);
      assert !Changes(owners, b);
    }
  }

  /** The first change after a, if there is one up to b. */
  lemma {:induction false} FirstChange(owners: seq<int>, a: nat, b: nat) returns (x: nat)
    requires a <= b < |owners| && !Reached(owners, a, b)
    ensures a < x <= b && Changes(owners, x) && Reached(owners, a, x - 1) && Owner(owners, x - 1) == Owner(owners, a)
    decreases b
  {
    if Reached(owners, a, b - 1) {
      x := b;
      SameOwner(owners, a, b - 1);
    } else {
      x := FirstChange(owners, a, b - 1);
    }
  }

  lemma {:induction false} OwnerAssigned(owners: seq<int>, n: nat)
    requires n < |owners|
    ensures Owner(owners, n) == 0 || Owner(owners, n) in owners
  {
    if owners[n] == 0 && n > 0 { OwnerAssigned(owners, n - 1); }
  }

  // ---------------------------------------------------------------------------------------------
  // The invariant
  // ---------------------------------------------------------------------------------------------

  /** The groups are those the chain speaks of. */
  ghost predicate Covers(owners: seq<int>, lane: Lane)
  {
    && lane.nums.Keys == lane.cells.Keys && 0 !in lane.nums
    && (forall g :: g in lane.nums ==> lane.nums[g] < |owners|)
    && (forall n :: 0 <= n < |owners| && owners[n] != 0 ==> owners[n] in lane.nums)
  }

  /** The status a group has for the shard, from where it is in the chain and where the shard is. */
  ghost predicate StatusFits(owners: seq<int>, epoch: nat, g: int, num: nat, cell: Shard)
    requires num < |owners|
  {
    if Owner(owners, num) == g then
      if Reached(owners, epoch, num) then cell.status == Serving || (cell.status == GCing && TransferAt(owners, num))
      else cell.status == Pulling && TransferAt(owners, num)
    else
      cell.status == Invalid || (cell.status == Pushing && Left(owners, g, num))
  }

  /** What a group has behind it: it got each shard that it owned in an earlier configuration, and handed on each
      that it lost, except one it is pushing still. */
  ghost predicate PastFits(owners: seq<int>, epoch: nat, g: int, num: nat, cell: Shard)
    requires num < |owners|
  {
    && (forall m :: 0 <= m < num && Owner(owners, m) == g ==> Reached(owners, epoch, m))
    && (forall n :: Left(owners, g, n) && n <= num ==> n <= epoch || (n == num && cell.status == Pushing))
  }

  ghost predicate Fits(owners: seq<int>, epoch: nat, g: int, num: nat, cell: Shard)
  {
    && num < |owners| && StatusFits(owners, epoch, g, num, cell) && PastFits(owners, epoch, g, num, cell)
    && (cell.status == Invalid || cell.status == Pulling ==> cell.data == EMPTY)
  }

  ghost predicate GroupFits(owners: seq<int>, lane: Lane, epoch: nat, g: int)
  {
    g in lane.nums ==> g in lane.cells && Fits(owners, epoch, g, lane.nums[g], lane.cells[g])
  }

  ghost predicate Behind(lane: Lane, g: int, n: int)
  {
    g in lane.nums && lane.nums[g] >= n
  }

  /** Both groups of a change up to `epoch` have come that far. */
  ghost predicate Passed(owners: seq<int>, lane: Lane, epoch: nat, n: int)
  {
    n <= epoch && Changes(owners, n) ==>
      Behind(lane, Owner(owners, n), n) && (Owner(owners, n - 1) != 0 ==> Behind(lane, Owner(owners, n - 1), n))
  }

  /** A copy being pushed has its receiver waiting for it, or waiting to say that it may be deleted. */
  ghost predicate Awaited(owners: seq<int>, lane: Lane, g: int)
  {
    g in lane.nums && g in lane.cells && lane.cells[g].status == Pushing && lane.nums[g] < |owners| ==>
      var n := lane.nums[g];
      var h := Owner(owners, n);
      && h in lane.nums && h in lane.cells
      && (lane.nums[h] < n || (lane.nums[h] == n && (lane.cells[h].status == Pulling || lane.cells[h].status == GCing)))
  }

  ghost predicate Authoritative(owners: seq<int>, lane: Lane, epoch: nat, data: Data)
  {
    && epoch < |owners|
    && var holder := Owner(owners, epoch);
       if holder == 0 then data == EMPTY else holder in lane.cells && lane.cells[holder].data == data
  }

  ghost predicate LaneInv(owners: seq<int>, lane: Lane, epoch: nat, data: Data)
  {
    && Covers(owners, lane) && epoch < |owners|
    && (forall g :: GroupFits(owners, lane, epoch, g))
    && (forall n :: Passed(owners, lane, epoch, n))
    && (forall g :: Awaited(owners, lane, g))
    && Authoritative(owners, lane, epoch, data)
  }

  // ---------------------------------------------------------------------------------------------
  // What the invariant says
  // ---------------------------------------------------------------------------------------------

  lemma CameTo(owners: seq<int>, lane: Lane, epoch: nat, g: int, n: int)
    requires (forall n :: Passed(owners, lane, epoch, n)) && n <= epoch && Changes(owners, n) && g != 0
    requires Owner(owners, n) == g || Owner(owners, n - 1) == g
    ensures g in lane.nums && lane.nums[g] >= n
  {
    assert Passed(owners, lane, epoch, n);
  }

  /** A group that has come to configuration num and owns the shard there still owns it at the epoch, unless the
      shard has yet to come. */
  lemma OwnsStill(owners: seq<int>, lane: Lane, epoch: nat, data: Data, g: int)
    requires LaneInv(owners, lane, epoch, data) && g in lane.nums
    requires Owner(owners, lane.nums[g]) == g && Reached(owners, epoch, lane.nums[g])
    ensures Owner(owners, epoch) == g
  {
    var num := lane.nums[g];
    if epoch <= num {
      SameOwner(owners, epoch, num);
    } else if Reached(owners, num, epoch) {
      SameOwner(owners, num, epoch);
    } else {
      var x := FirstChange(owners, num, epoch);
      CameTo(owners, lane, epoch, g, x);
    }
  }

  /** Only the holder serves the shard. */
  lemma ServingHolds(owners: seq<int>, lane: Lane, epoch: nat, data: Data, g: int)
    requires LaneInv(owners, lane, epoch, data) && g in lane.nums && Serves(lane.cells[g])
    ensures Owner(owners, epoch) == g && lane.cells[g].data == data
  {
    assert GroupFits(owners, lane, epoch, g);
    OwnsStill(owners, lane, epoch, data, g);
  }

  /** The holder serves the shard, or pushes it to the next. */
  lemma HolderStatus(owners: seq<int>, lane: Lane, epoch: nat, data: Data, g: int)
    requires LaneInv(owners, lane, epoch, data) && g != 0 && Owner(owners, epoch) == g
    ensures g in lane.nums && (Serves(lane.cells[g]) || (lane.cells[g].status == Pushing && lane.nums[g] > epoch))
  {
    OwnerAssigned(owners, epoch);
    assert GroupFits(owners, lane, epoch, g);
    var num := lane.nums[g];
    if num < epoch {
      HolderCame(owners, lane, epoch, data, g);
    } else if !Reached(owners, epoch, num) {
      var x := FirstChange(owners, epoch, num);
      assert Left(owners, g, x);
    } else {
      SameOwner(owners, epoch, num);
    }
  }

  /** Who is to receive a copy that is being pushed, and how far it is. */
  lemma Receiver(owners: seq<int>, lane: Lane, epoch: nat, data: Data, g: int) returns (h: int)
    requires Clean(owners) && LaneInv(owners, lane, epoch, data) && g in lane.nums && lane.cells[g].status == Pushing
    ensures var n := lane.nums[g];
            && n < |owners| && h == owners[n] && h in lane.nums && h in lane.cells && h != g
            && (lane.nums[h] < n || (lane.nums[h] == n && (lane.cells[h].status == Pulling || lane.cells[h].status == GCing)))
  {
    assert Awaited(owners, lane, g) && GroupFits(owners, lane, epoch, g);
    CleanChange(owners, lane.nums[g]);
    h := owners[lane.nums[g]];
  }

  /** The holder has come at least to the configuration of the last change. */
  lemma HolderCame(owners: seq<int>, lane: Lane, epoch: nat, data: Data, g: int)
    requires LaneInv(owners, lane, epoch, data) && g in lane.nums && Owner(owners, epoch) == g && lane.nums[g] < epoch
    ensures Owner(owners, lane.nums[g]) == g && Reached(owners, epoch, lane.nums[g])
  {
    var num := lane.nums[g];
    if Reached(owners, num, epoch) {
      SameOwner(owners, num, epoch);
    } else {
      var x := LastChange(owners, num, epoch);
      CameTo(owners, lane, epoch, g, x);
    }
  }

  lemma {:induction false} LastChange(owners: seq<int>, a: nat, b: nat) returns (x: nat)
    requires a <= b < |owners| && !Reached(owners, a, b)
    ensures a < x <= b && Changes(owners, x) && Owner(owners, x) == Owner(owners, b)
    decreases b
  {
    if Changes(owners, b) { x := b; } else { x := LastChange(owners, a, b - 1); }
  }

  // ---------------------------------------------------------------------------------------------
  // Handing over
  // ---------------------------------------------------------------------------------------------

  /** The next hand-over after `epoch` is in configuration n. */
  ghost predicate NextChange(owners: seq<int>, epoch: nat, n: nat)
  {
    epoch < n < |owners| && Changes(owners, n) && Reached(owners, epoch, n - 1)
  }

  lemma ReachedLess(owners: seq<int>, epoch: nat, m: int, n: int)
    requires Reached(owners, epoch, n) && m <= n
    ensures Reached(owners, epoch, m)
  {
  }

  /** A hand-over to h leaves the other groups' standing as it is. */
  lemma OthersFit(owners: seq<int>, epoch: nat, n: nat, g: int, num: nat, cell: Shard)
    requires Fits(owners, epoch, g, num, cell) && NextChange(owners, epoch, n) && g != Owner(owners, n)
    ensures Fits(owners, n, g, num, cell)
  {
    if Owner(owners, num) == g {
      if num < n {
        ReachedLess(owners, epoch, num, n - 1);
      } else if Reached(owners, n, num) {
        SameOwner(owners, n, num);
      }
    }
    forall m | 0 <= m < num && Owner(owners, m) == g
      ensures Reached(owners, n, m)
    {
      assert Reached(owners, epoch, m);
    }
  }

  /** The two groups of the next hand-over: up to it nothing else changes. */
  lemma NextPassed(owners: seq<int>, lane: Lane, epoch: nat, n: nat)
    requires NextChange(owners, epoch, n) && forall x :: Passed(owners, lane, epoch, x)
    requires Behind(lane, Owner(owners, n), n) && (Owner(owners, n - 1) != 0 ==> Behind(lane, Owner(owners, n - 1), n))
    ensures forall x :: Passed(owners, lane, n, x)
  {
    forall x
      ensures Passed(owners, lane, n, x)
    {
      assert Passed(owners, lane, epoch, x);
      assert epoch < x <= n - 1 ==> !Changes(owners, x);
    }
  }

  // ---------------------------------------------------------------------------------------------
  // A group moves to its next configuration
  // ---------------------------------------------------------------------------------------------

  /** Whether this is the first assignment of the shard ever. */
  ghost predicate Genesis(owners: seq<int>, n: int)
  {
    Changes(owners, n) && Owner(owners, n - 1) == 0
  }

  ghost function BumpEpoch(owners: seq<int>, epoch: nat, g: int, n: nat): nat
    requires n < |owners|
  {
    if Genesis(owners, n) && Owner(owners, n) == g then n else epoch
  }

  function BumpLane(owners: seq<int>, lane: Lane, g: int): Lane
    requires g in lane.nums && g in lane.cells && lane.nums[g] + 1 < |owners|
  {
    var n := lane.nums[g];
    Lane(lane.nums[g := n + 1], lane.cells[g := ConfigShard(g, owners[n], owners[n + 1], lane.cells[g])])
  }

  /** No hand-over to g can have happened beyond where g is. */
  lemma NotAhead(owners: seq<int>, lane: Lane, epoch: nat, g: int, n: nat)
    requires (forall x :: Passed(owners, lane, epoch, x)) && g in lane.nums && lane.nums[g] < n && g != 0
    requires Changes(owners, n) && (Owner(owners, n) == g || Owner(owners, n - 1) == g)
    ensures epoch < n
  {
    if n <= epoch { CameTo(owners, lane, epoch, g, n); }
  }

  /** The moving group's own standing. */
  lemma BumpedFits(owners: seq<int>, lane: Lane, epoch: nat, g: int, n: nat, cell: Shard)
    requires Clean(owners) && g != 0 && g in lane.nums && lane.nums[g] == n && n + 1 < |owners|
    requires Fits(owners, epoch, g, n, cell) && Settled(cell) && forall x :: Passed(owners, lane, epoch, x)
    ensures Fits(owners, BumpEpoch(owners, epoch, g, n + 1), g, n + 1, ConfigShard(g, owners[n], owners[n + 1], cell))
  {
    var epoch', cell' := BumpEpoch(owners, epoch, g, n + 1), ConfigShard(g, owners[n], owners[n + 1], cell);
    assert CleanAt(owners, n);
    if Changes(owners, n + 1) {
      CleanChange(owners, n + 1);
      if Owner(owners, n + 1) == g || Owner(owners, n) == g { NotAhead(owners, lane, epoch, g, n + 1); }
    }
    BumpedStatus(owners, epoch, g, n, cell);
    BumpedPast(owners, epoch, g, n, cell);
  }

  lemma BumpedStatus(owners: seq<int>, epoch: nat, g: int, n: nat, cell: Shard)
    requires Clean(owners) && g != 0 && n + 1 < |owners|
    requires Fits(owners, epoch, g, n, cell) && Settled(cell)
    requires Changes(owners, n + 1) && (Owner(owners, n + 1) == g || Owner(owners, n) == g) ==> epoch <= n
    ensures var cell' := ConfigShard(g, owners[n], owners[n + 1], cell);
            && StatusFits(owners, BumpEpoch(owners, epoch, g, n + 1), g, n + 1, cell')
            && (cell'.status == Invalid || cell'.status == Pulling ==> cell'.data == EMPTY)
  {
    assert CleanAt(owners, n);
    if Changes(owners, n + 1) {
      CleanChange(owners, n + 1);
    } else if Owner(owners, n) == g {
      assert Reached(owners, epoch, n + 1);
    }
  }

  lemma BumpedPast(owners: seq<int>, epoch: nat, g: int, n: nat, cell: Shard)
    requires Clean(owners) && g != 0 && n + 1 < |owners|
    requires Fits(owners, epoch, g, n, cell) && Settled(cell)
    requires Changes(owners, n + 1) && (Owner(owners, n + 1) == g || Owner(owners, n) == g) ==> epoch <= n
    ensures PastFits(owners, BumpEpoch(owners, epoch, g, n + 1), g, n + 1, ConfigShard(g, owners[n], owners[n + 1], cell))
  {
    if Changes(owners, n + 1) { CleanChange(owners, n + 1); }
    assert Owner(owners, n) == g ==> Reached(owners, epoch, n);
  }

  /** Both groups of a change have a place in the lane. */
  lemma OwnerInLane(owners: seq<int>, lane: Lane, n: nat)
    requires Covers(owners, lane) && n < |owners| && Owner(owners, n) != 0
    ensures Owner(owners, n) in lane.nums && Owner(owners, n) in lane.cells
  {
    OwnerAssigned(owners, n);
  }

  lemma BumpPassed(owners: seq<int>, lane: Lane, epoch: nat, data: Data, g: int)
    requires Clean(owners) && LaneInv(owners, lane, epoch, data) && g in lane.nums && lane.nums[g] + 1 < |owners|
    ensures var lane', epoch' := BumpLane(owners, lane, g), BumpEpoch(owners, epoch, g, lane.nums[g] + 1);
            forall x :: Passed(owners, lane', epoch', x)
  {
    var n, lane' := lane.nums[g], BumpLane(owners, lane, g);
    forall x
      ensures Passed(owners, lane', epoch, x)
    {
      assert Passed(owners, lane, epoch, x);
    }
    if Genesis(owners, n + 1) && Owner(owners, n + 1) == g {
      NotAhead(owners, lane, epoch, g, n + 1);
      NothingBefore(owners, n);
      NextPassed(owners, lane', epoch, n + 1);
    }
  }

  /** Before the first assignment nothing changes. */
  lemma {:induction false} NothingBefore(owners: seq<int>, n: nat)
    requires n < |owners| && Owner(owners, n) == 0
    ensures forall m: nat :: m <= n ==> Owner(owners, m) == 0
    ensures forall epoch :: Reached(owners, epoch, n)
  {
    if n > 0 { NothingBefore(owners, n - 1); }
  }

  lemma BumpOthers(owners: seq<int>, lane: Lane, epoch: nat, data: Data, g: int, g': int)
    requires Clean(owners) && LaneInv(owners, lane, epoch, data) && g in lane.nums && lane.nums[g] + 1 < |owners|
    requires Settled(lane.cells[g])
    ensures GroupFits(owners, BumpLane(owners, lane, g), BumpEpoch(owners, epoch, g, lane.nums[g] + 1), g')
  {
    var n := lane.nums[g];
    if g' in lane.nums {
      assert GroupFits(owners, lane, epoch, g');
      if g' == g {
        BumpedFits(owners, lane, epoch, g, n, lane.cells[g]);
      } else if Genesis(owners, n + 1) && Owner(owners, n + 1) == g {
        NotAhead(owners, lane, epoch, g, n + 1);
        NothingBefore(owners, n);
        OthersFit(owners, epoch, n + 1, g', lane.nums[g'], lane.cells[g']);
      }
    }
  }

  lemma BumpAwaited(owners: seq<int>, lane: Lane, epoch: nat, data: Data, g: int, p: int)
    requires Clean(owners) && LaneInv(owners, lane, epoch, data) && g in lane.nums && lane.nums[g] + 1 < |owners|
    requires Settled(lane.cells[g])
    ensures Awaited(owners, BumpLane(owners, lane, g), p)
  {
    var n, lane' := lane.nums[g], BumpLane(owners, lane, g);
    assert Awaited(owners, lane, p);
    if p == g && lane'.cells[g].status == Pushing {
      NewlyPushed(owners, lane, epoch, data, g);
    } else if p != g && p in lane.nums && lane.cells[p].status == Pushing {
      assert GroupFits(owners, lane, epoch, p);
      CleanChange(owners, lane.nums[p]);
    }
  }

  /** When g starts pushing in configuration n, the receiver has not come beyond n, and if it is there it is pulling. */
  lemma NewlyPushed(owners: seq<int>, lane: Lane, epoch: nat, data: Data, g: int)
    requires Clean(owners) && LaneInv(owners, lane, epoch, data) && g in lane.nums && lane.nums[g] + 1 < |owners|
    requires Settled(lane.cells[g]) && BumpLane(owners, lane, g).cells[g].status == Pushing
    ensures var n, h := lane.nums[g] + 1, Owner(owners, lane.nums[g] + 1);
            && h != g && h in lane.nums && h in lane.cells
            && (lane.nums[h] < n || (lane.nums[h] == n && lane.cells[h].status == Pulling))
  {
    var n := lane.nums[g] + 1;
    var h := Owner(owners, n);
    assert Changes(owners, n);
    NotAhead(owners, lane, epoch, g, n);
    OwnerInLane(owners, lane, n);
    assert GroupFits(owners, lane, epoch, h);
    assert !Reached(owners, epoch, n);
  }

  /** A settled group moves to its next configuration. */
  lemma Bump(owners: seq<int>, lane: Lane, epoch: nat, data: Data, g: int)
    requires Clean(owners) && LaneInv(owners, lane, epoch, data) && g in lane.nums && lane.nums[g] + 1 < |owners|
    requires Settled(lane.cells[g])
    ensures LaneInv(owners, BumpLane(owners, lane, g), BumpEpoch(owners, epoch, g, lane.nums[g] + 1), data)
    ensures BumpEpoch(owners, epoch, g, lane.nums[g] + 1) >= epoch
  {
    var n, lane' := lane.nums[g], BumpLane(owners, lane, g);
    var epoch' := BumpEpoch(owners, epoch, g, n + 1);
    BumpPassed(owners, lane, epoch, data, g);
    forall g' ensures GroupFits(owners, lane', epoch', g') && Awaited(owners, lane', g')
    {
      BumpOthers(owners, lane, epoch, data, g, g');
      BumpAwaited(owners, lane, epoch, data, g, g');
    }
    if epoch' != epoch {
      NotAhead(owners, lane, epoch, g, n + 1);
      NothingBefore(owners, n);
      assert GroupFits(owners, lane, epoch, g);
    }
  }

  // ---------------------------------------------------------------------------------------------
  // The shard arrives
  // ---------------------------------------------------------------------------------------------

  ghost predicate Pushes(lane: Lane, g: int, n: nat)
  {
    g in lane.nums && g in lane.cells && lane.nums[g] == n && lane.cells[g].status == Pushing
  }

  /** What a group fetched for configuration n: the frozen copy of the old group, or something that comes too late. */
  ghost predicate Fetched(owners: seq<int>, lane: Lane, epoch: nat, h: int, n: nat, payload: Data)
  {
    && TransferAt(owners, n) && Owner(owners, n) == h
    && var g := Owner(owners, n - 1);
       Behind(lane, g, n) && (n <= epoch || (Pushes(lane, g, n) && lane.cells[g].data == payload))
  }

  function WithCell(lane: Lane, g: int, cell: Shard): Lane
  {
    lane.(cells := lane.cells[g := cell])
  }

  /** A group that is pulling still takes over from the holder. */
  lemma PullsFromHolder(owners: seq<int>, lane: Lane, epoch: nat, data: Data, h: int, n: nat, payload: Data)
    requires LaneInv(owners, lane, epoch, data) && Fetched(owners, lane, epoch, h, n, payload)
    requires h in lane.nums && lane.nums[h] == n && lane.cells[h].status == Pulling
    ensures NextChange(owners, epoch, n) && Owner(owners, epoch) == Owner(owners, n - 1) && payload == data
  {
    var g := Owner(owners, n - 1);
    assert GroupFits(owners, lane, epoch, h) && GroupFits(owners, lane, epoch, g);
    assert epoch < n;
    assert Reached(owners, epoch, n - 1);
    SameOwner(owners, epoch, n - 1);
  }

  lemma ArrivedFits(owners: seq<int>, epoch: nat, n: nat, h: int, cell: Shard, cell': Shard)
    requires Fits(owners, epoch, h, n, cell) && cell.status == Pulling && cell'.status == GCing
    requires NextChange(owners, epoch, n) && TransferAt(owners, n) && Owner(owners, n) == h
    ensures Fits(owners, n, h, n, cell')
  {
    forall m | 0 <= m < n && Owner(owners, m) == h
      ensures Reached(owners, n, m)
    {
      assert Reached(owners, epoch, m);
    }
  }

  /** The data that was fetched is inserted: the shard changes hands, and nothing is lost. */
  lemma Insert(owners: seq<int>, lane: Lane, epoch: nat, data: Data, h: int, n: nat, payload: Data)
    requires LaneInv(owners, lane, epoch, data) && Fetched(owners, lane, epoch, h, n, payload)
    requires h in lane.nums && lane.nums[h] == n && lane.cells[h].status == Pulling
    ensures epoch < n && LaneInv(owners, WithCell(lane, h, InsertInto(lane.cells[h], payload)), n, data)
  {
    var lane' := WithCell(lane, h, InsertInto(lane.cells[h], payload));
    PullsFromHolder(owners, lane, epoch, data, h, n, payload);
    assert GroupFits(owners, lane, epoch, h);
    InsertIntoEmpty(lane.cells[h], payload);
    forall g
      ensures GroupFits(owners, lane', n, g)
    {
      assert GroupFits(owners, lane, epoch, g);
      if g == h {
        ArrivedFits(owners, epoch, n, h, lane.cells[h], lane'.cells[h]);
      } else if g in lane.nums {
        OthersFit(owners, epoch, n, g, lane.nums[g], lane.cells[g]);
      }
    }
    forall g ensures Awaited(owners, lane', g) { assert Awaited(owners, lane, g); }
    PassedAlong(owners, lane, lane', epoch);
    NextPassed(owners, lane', epoch, n);
  }

  lemma PassedAlong(owners: seq<int>, lane: Lane, lane': Lane, epoch: nat)
    requires lane'.nums == lane.nums && forall x :: Passed(owners, lane, epoch, x)
    ensures forall x :: Passed(owners, lane', epoch, x)
  {
    forall x ensures Passed(owners, lane', epoch, x) { assert Passed(owners, lane, epoch, x); }
  }

  // ---------------------------------------------------------------------------------------------
  // The old copy goes, and the receiver is told
  // ---------------------------------------------------------------------------------------------

  /** The group that pushed the shard away and has seen the hand-over is not the holder. */
  lemma PusherLetGo(owners: seq<int>, lane: Lane, epoch: nat, data: Data, g: int, n: nat)
    requires LaneInv(owners, lane, epoch, data) && Pushes(lane, g, n) && n <= epoch
    ensures Owner(owners, epoch) != g && Left(owners, g, n)
  {
    assert GroupFits(owners, lane, epoch, g);
    if Owner(owners, epoch) == g {
      if Reached(owners, n, epoch) {
        SameOwner(owners, n, epoch);
      } else {
        var x := LastChange(owners, n, epoch);
        CameTo(owners, lane, epoch, g, x);
      }
    }
  }

  /** Deleting a copy that has been handed over: the holder is another group. */
  lemma Delete(owners: seq<int>, lane: Lane, epoch: nat, data: Data, g: int, n: nat)
    requires LaneInv(owners, lane, epoch, data) && Pushes(lane, g, n) && n <= epoch
    ensures LaneInv(owners, WithCell(lane, g, Shard(EMPTY, Invalid)), epoch, data)
    ensures Owner(owners, epoch) != g
  {
    var lane' := WithCell(lane, g, Shard(EMPTY, Invalid));
    PusherLetGo(owners, lane, epoch, data, g, n);
    forall p
      ensures GroupFits(owners, lane', epoch, p) && Awaited(owners, lane', p)
    {
      assert GroupFits(owners, lane, epoch, p) && Awaited(owners, lane, p);
      assert GroupFits(owners, lane, epoch, g);
    }
    PassedAlong(owners, lane, lane', epoch);
  }

  /** The old group has deleted its copy, or never will have one again. */
  ghost predicate Deleted(owners: seq<int>, lane: Lane, h: int, n: nat)
  {
    && TransferAt(owners, n) && Owner(owners, n) == h
    && Behind(lane, Owner(owners, n - 1), n) && !Pushes(lane, Owner(owners, n - 1), n)
  }

  lemma Complete(owners: seq<int>, lane: Lane, epoch: nat, data: Data, h: int, n: nat)
    requires LaneInv(owners, lane, epoch, data) && Deleted(owners, lane, h, n)
    requires h in lane.nums && lane.nums[h] == n && lane.cells[h].status == GCing
    ensures LaneInv(owners, WithCell(lane, h, lane.cells[h].(status := Serving)), epoch, data)
  {
    var lane' := WithCell(lane, h, lane.cells[h].(status := Serving));
    assert GroupFits(owners, lane, epoch, h);
    forall p
      ensures GroupFits(owners, lane', epoch, p) && Awaited(owners, lane', p)
    {
      assert GroupFits(owners, lane, epoch, p) && Awaited(owners, lane, p);
    }
    PassedAlong(owners, lane, lane', epoch);
  }

  /** An operation that takes effect does so on the one copy that counts. */
  lemma Client(owners: seq<int>, lane: Lane, epoch: nat, data: Data, g: int, op: Op)
    requires LaneInv(owners, lane, epoch, data) && g in lane.nums && g in lane.cells && op.ClientOp?
    ensures var data' := if TakesEffect(lane.cells[g], op) then Perform(data, op) else data;
            LaneInv(owners, WithCell(lane, g, ClientShard(lane.cells[g], op)), epoch, data')
    ensures TakesEffect(lane.cells[g], op) ==> !Duplicate(data, op)
  {
    var lane' := WithCell(lane, g, ClientShard(lane.cells[g], op));
    if TakesEffect(lane.cells[g], op) {
      ServingHolds(owners, lane, epoch, data, g);
      assert GroupFits(owners, lane, epoch, g);
      forall p
        ensures GroupFits(owners, lane', epoch, p) && Awaited(owners, lane', p)
      {
        assert GroupFits(owners, lane, epoch, p) && Awaited(owners, lane, p);
      }
      PassedAlong(owners, lane, lane', epoch);
    } else {
      assert lane'.cells == lane.cells;
    }
  }

  // ---------------------------------------------------------------------------------------------
  // What stays true as the groups move on
  // ---------------------------------------------------------------------------------------------

  /** Within one configuration nothing is pushed that was not, and nothing starts to move. */
  predicate Later(cell: Shard, cell': Shard)
  {
    (cell'.status == Pushing ==> cell' == cell) && (!Settled(cell') ==> !Settled(cell))
  }

  ghost predicate CellGrows(lane: Lane, lane': Lane, g: int)
  {
    g in lane.nums && g in lane.cells ==>
      && g in lane'.nums && g in lane'.cells && lane.nums[g] <= lane'.nums[g]
      && (lane.nums[g] == lane'.nums[g] ==> Later(lane.cells[g], lane'.cells[g]))
  }

  ghost predicate Grows(lane: Lane, lane': Lane)
  {
    && lane.nums.Keys == lane.cells.Keys == lane'.nums.Keys == lane'.cells.Keys
    && forall g :: CellGrows(lane, lane', g)
  }

  /** What was fetched stays what is being pushed until it comes too late. */
  lemma FetchedStays(owners: seq<int>, lane: Lane, epoch: nat, lane': Lane, epoch': nat, data': Data, h: int, n: nat, payload: Data)
    requires Fetched(owners, lane, epoch, h, n, payload) && Grows(lane, lane') && epoch <= epoch'
    requires LaneInv(owners, lane', epoch', data')
    ensures Fetched(owners, lane', epoch', h, n, payload)
  {
    var g := Owner(owners, n - 1);
    assert CellGrows(lane, lane', g);
    assert GroupFits(owners, lane', epoch', g);
    assert Left(owners, g, n);
  }

  lemma DeletedStays(owners: seq<int>, lane: Lane, lane': Lane, h: int, n: nat)
    requires Deleted(owners, lane, h, n) && Grows(lane, lane')
    ensures Deleted(owners, lane', h, n)
  {
    assert CellGrows(lane, lane', Owner(owners, n - 1));
  }

  // ---------------------------------------------------------------------------------------------
  // The beginning
  // ---------------------------------------------------------------------------------------------

  lemma Begins(owners: seq<int>, lane: Lane)
    requires Clean(owners) && Covers(owners, lane)
    requires forall g :: g in lane.nums ==> lane.nums[g] == 0 && lane.cells[g] == Shard(EMPTY, Invalid)
    ensures LaneInv(owners, lane, 0, EMPTY)
  {
  }
}
