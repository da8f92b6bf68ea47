/** What build_blocks buys the campaign (src/shapeflow/campaign/schedule.py:1-25, 138-234): every
    block runs every arm, a second seed runs the exact reversal, arms are balanced over the
    blocks, and every cell is named once. */
module BlockBalance {
  import opened Randomization
  import opened Sorting
  import opened WilliamsBalance
  import opened Schedule
  import opened ScheduleBalance
  import opened Blocks

  // --------------------------------------------------------- every arm, once

  lemma {:induction false} PermutationIsOnto(row: seq<nat>, n: nat, a: nat)
    requires IsPermutation(row, n) && a < n
    ensures a in row
  {
    if a !in row {
      var (values, others) := ((set x | x in row), UpTo(n) - {a});
      DistinctLength(row, values);
      assert values <= others;
      SubsetSize(values, others);
    }
  }

  ghost function UpTo(n: nat): (r: set<nat>)
    ensures |r| == n && forall x: nat :: x in r <==> x < n
  {
    if n == 0 then {} else UpTo(n - 1) + {n - 1}
  }

  lemma {:induction false} SubsetSize<T>(a: set<T>, b: set<T>)
    requires a <= b
    ensures |a| <= |b|
  {
    assert b == a + (b - a);
  }

  /** Each block runs each arm of the campaign at exactly one position, so the comparator is in
      every block, and two cells of a block never share an arm. */
  lemma {:induction false} BlockRunsEveryArm(m: Manifest, al: Allocation, id: Coordinate -> string, k: nat)
    requires m.arms != [] && Distinct(ArmIds(m.arms)) && Ordered(|m.arms|, al) && Scheduled(m, al, id) && k < |m.blocks|
    ensures |m.blocks[k].cells| == |m.arms|
    ensures forall a | a in m.arms :: exists j :: 0 <= j < |m.blocks[k].cells| && m.blocks[k].cells[j].arm == a
    ensures forall i, j | 0 <= i < j < |m.blocks[k].cells| ::
      m.blocks[k].cells[i].arm.armId != m.blocks[k].cells[j].arm.armId
    ensures forall j | 0 <= j < |m.blocks[k].cells| ::
      m.blocks[k].cells[j].arm in m.arms && m.blocks[k].cells[j].orderIndex == j
  {
    hide Ordered;
    var c := Agenda(al.tasks, al.second)[k];
    AgendaInRange(al, k);
    OrdersFit(|m.arms|, al, c);
    var (row, cells) := (al.orders[c], m.blocks[k].cells);
    assert BlockMatches(m, k, c, al.orders, id);
    forall a | a in m.arms ensures exists j :: 0 <= j < |cells| && cells[j].arm == a {
      var x: nat :| x < |m.arms| && m.arms[x] == a;
      PermutationIsOnto(row, |m.arms|, x);
      var j :| 0 <= j < |row| && row[j] == x;
      assert cells[j].arm == a;
    }
    forall i, j | 0 <= i < j < |cells| ensures cells[i].arm.armId != cells[j].arm.armId {
      assert row[i] != row[j];
      assert ArmIds(m.arms)[row[i]] != ArmIds(m.arms)[row[j]];
    }
  }

  lemma {:induction false} AgendaInRange(al: Allocation, k: nat)
    requires k < |Agenda(al.tasks, al.second)|
    ensures Agenda(al.tasks, al.second)[k] in Coordinates(al.tasks, al.second)
  {
    AgendaHolds(al.tasks, al.second, Agenda(al.tasks, al.second)[k]);
  }

  // ---------------------------------------------------------------- reversal

  /** The blocks of a task with a second seed run opposite orders. */
  lemma {:induction false} SecondSeedReverses(m: Manifest, al: Allocation, id: Coordinate -> string, i: nat, j: nat,
      t: string)
    requires |m.arms| >= 2 && Ordered(|m.arms|, al) && Scheduled(m, al, id) && t in al.second
    requires i < |m.blocks| && j < |m.blocks|
    requires Agenda(al.tasks, al.second)[i] == (t, 0) && Agenda(al.tasks, al.second)[j] == (t, 1)
    ensures |m.blocks[i].cells| == |m.blocks[j].cells|
    ensures forall p | 0 <= p < |m.blocks[i].cells| ::
      m.blocks[j].cells[p].arm == m.blocks[i].cells[|m.blocks[i].cells| - 1 - p].arm
  {
    hide IsWindow, Coordinates, Spelled, Users, Remainder, Cycles;
    assert BlockMatches(m, i, (t, 0), al.orders, id) && BlockMatches(m, j, (t, 1), al.orders, id);
    assert al.orders[(t, 1)] == Reverse(al.orders[(t, 0)]);
  }

  // ------------------------------------------------------------------- seeds

  /** What every cell runs under: the first replicate of a task the first seed, the second replicate
      the second seed. With one seed both run under it; with none, under 0. */
  lemma {:induction false} CellsRunTheirSeed(m: Manifest, al: Allocation, id: Coordinate -> string, k: nat, p: nat)
    requires Scheduled(m, al, id) && k < |m.blocks| && p < |m.blocks[k].cells|
    ensures k < |Agenda(al.tasks, al.second)|
    ensures var (t, replicate) := Agenda(al.tasks, al.second)[k];
      var (block, cell) := (m.blocks[k], m.blocks[k].cells[p]);
      && t in al.tasks && (replicate == 0 || (replicate == 1 && t in al.second))
      && block.taskId == cell.taskId == t && block.blockId == cell.blockId == id((t, replicate))
      && block.replicateId == cell.replicateId == (if replicate == 0 then "0" else "1") && cell.orderIndex == p
      && (|m.seeds| >= 2 ==> cell.seed == m.seeds[replicate])
      && (|m.seeds| == 1 ==> cell.seed == m.seeds[0]) && (m.seeds == [] ==> cell.seed == 0)
  {
    var c := Agenda(al.tasks, al.second)[k];
    AgendaHolds(al.tasks, al.second, c);
    assert BlockMatches(m, k, c, al.orders, id);
    assert m.blocks[k].cells[p].seed == SeedFor(m.seeds, c.1);
    SeedIs(m.seeds, c.1);
  }

  lemma {:induction false} SeedIs(seeds: seq<int>, r: nat)
    requires r < 2
    ensures SeedFor(seeds, r) == if seeds == [] then 0 else if |seeds| == 1 then seeds[0] else seeds[r]
  {
    if |seeds| == 1 { assert r % 1 == 0; }
  }

  /** The two blocks of a task with a second seed never share a seed or a replicate id. */
  lemma {:induction false} SecondSeedDiffers(m: Manifest, al: Allocation, id: Coordinate -> string, i: nat, j: nat,
      t: string, p: nat, q: nat)
    requires Scheduled(m, al, id) && |m.seeds| >= 2 && m.seeds[0] != m.seeds[1] && i < |m.blocks| && j < |m.blocks|
    requires Agenda(al.tasks, al.second)[i] == (t, 0) && Agenda(al.tasks, al.second)[j] == (t, 1)
    requires p < |m.blocks[i].cells| && q < |m.blocks[j].cells|
    ensures m.blocks[i].cells[p].seed != m.blocks[j].cells[q].seed
      && m.blocks[i].cells[p].replicateId != m.blocks[j].cells[q].replicateId
  {
    hide Scheduled;
    CellsRunTheirSeed(m, al, id, i, p);
    CellsRunTheirSeed(m, al, id, j, q);
  }

  // ----------------------------------------------------------------- balance

  /** The blocks that run `arm` at position j. */
  ghost function BlocksRunning(m: Manifest, j: nat, arm: ArmSpec): set<nat> {
    set k: nat | k < |m.blocks| && j < |m.blocks[k].cells| && m.blocks[k].cells[j].arm == arm
  }

  /** The (block, position) pairs at which `next` runs immediately after `arm`. */
  ghost function BlocksFollowing(m: Manifest, arm: ArmSpec, next: ArmSpec): set<(nat, nat)> {
    set k: nat, p: nat | k < |m.blocks| && p < |m.blocks[k].cells| - 1
      && m.blocks[k].cells[p].arm == arm && m.blocks[k].cells[p + 1].arm == next :: (k, p)
  }

  lemma {:induction false} ArmAt(m: Manifest, al: Allocation, id: Coordinate -> string, k: nat, j: nat, a: nat)
    requires Distinct(ArmIds(m.arms)) && Scheduled(m, al, id) && k < |m.blocks| && a < |m.arms|
    ensures var c := Agenda(al.tasks, al.second)[k];
      && c in al.orders && |m.blocks[k].cells| == |al.orders[c]| == |m.arms|
      && (j < |m.arms| ==> (m.blocks[k].cells[j].arm == m.arms[a] <==> al.orders[c][j] == a))
  {
    var c := Agenda(al.tasks, al.second)[k];
    assert BlockMatches(m, k, c, al.orders, id);
    if j < |m.arms| && al.orders[c][j] != a {
      assert ArmIds(m.arms)[al.orders[c][j]] != ArmIds(m.arms)[a];
    }
  }

  lemma {:induction false} AgendaFinds(al: Allocation, n: nat, c: Coordinate) returns (k: nat)
    requires n >= 2 && Ordered(n, al) && c in al.orders
    ensures k < |Agenda(al.tasks, al.second)| && Agenda(al.tasks, al.second)[k] == c
  {
    AgendaHolds(al.tasks, al.second, c);
    k :| k < |Agenda(al.tasks, al.second)| && Agenda(al.tasks, al.second)[k] == c;
  }

  lemma {:induction false} RunningMatches(m: Manifest, al: Allocation, id: Coordinate -> string, j: nat, a: nat)
    requires |m.arms| >= 2 && Distinct(ArmIds(m.arms)) && Ordered(|m.arms|, al) && Scheduled(m, al, id)
    requires j < |m.arms| && a < |m.arms|
    ensures |BlocksRunning(m, j, m.arms[a])| == |AtPosition(al.orders, j, a)|
  {
    var agenda := Agenda(al.tasks, al.second);
    AgendaDistinct(al.tasks, al.second);
    forall k: nat | k < |m.blocks| ensures agenda[k] in al.orders {
      ArmAt(m, al, id, k, j, a);
    }
    hide Ordered, Agenda, Scheduled;
    var (left, right) := (BlocksRunning(m, j, m.arms[a]), AtPosition(al.orders, j, a));
    assert |m.blocks| == |agenda| by { AsManyBlocks(m, al, id); }
    var f := (k: nat) => if k < |agenda| then agenda[k] else ("", 0);
    forall k | k in left ensures f(k) in right { ArmAt(m, al, id, k, j, a); }
    forall k, l | k in left && l in left && f(k) == f(l) ensures k == l { assert agenda[k] == agenda[l]; }
    forall c | c in right ensures exists k :: k in left && f(k) == c {
      var k := AgendaFinds(al, |m.arms|, c);
      ArmAt(m, al, id, k, j, a);
      assert k in left && f(k) == c;
    }
    SameSize(left, right, f);
  }

  lemma {:induction false} AsManyBlocks(m: Manifest, al: Allocation, id: Coordinate -> string)
    requires Scheduled(m, al, id)
    ensures |m.blocks| == |Agenda(al.tasks, al.second)|
  {
  }

  lemma {:induction false} FollowsAt(m: Manifest, al: Allocation, id: Coordinate -> string, k: nat, p: nat, a: nat,
      b: nat)
    requires Distinct(ArmIds(m.arms)) && Scheduled(m, al, id) && k < |m.blocks| && a < |m.arms| && b < |m.arms|
    ensures (k, p) in BlocksFollowing(m, m.arms[a], m.arms[b]) <==>
      (Agenda(al.tasks, al.second)[k], p) in Carryovers(al.orders, a, b)
  {
    hide Agenda, Scheduled, ArmIds;
    AsManyBlocks(m, al, id);
    ArmAt(m, al, id, k, p, a);
    ArmAt(m, al, id, k, p + 1, b);
  }

  /** A position of a block, as a position of its coordinate. */
  ghost function Placed(agenda: seq<Coordinate>): (f: ((nat, nat)) -> (Coordinate, nat))
    ensures forall x: (nat, nat) | x.0 < |agenda| :: f(x) == (agenda[x.0], x.1)
  {
    (x: (nat, nat)) => if x.0 < |agenda| then (agenda[x.0], x.1) else (("", 0), 0)
  }

  lemma {:induction false} FollowingFinds(m: Manifest, al: Allocation, id: Coordinate -> string, a: nat, b: nat,
      y: (Coordinate, nat))
    returns (x: (nat, nat))
    requires |m.arms| >= 2 && Distinct(ArmIds(m.arms)) && Ordered(|m.arms|, al) && Scheduled(m, al, id)
    requires a < |m.arms| && b < |m.arms| && y in Carryovers(al.orders, a, b) && y.0 in al.orders
    ensures x in BlocksFollowing(m, m.arms[a], m.arms[b]) && x.0 < |Agenda(al.tasks, al.second)|
    ensures Agenda(al.tasks, al.second)[x.0] == y.0 && x.1 == y.1
  {
    hide Ordered, Agenda, Scheduled, BlocksFollowing, Carryovers, ArmIds;
    AsManyBlocks(m, al, id);
    var k := AgendaFinds(al, |m.arms|, y.0);
    FollowsAt(m, al, id, k, y.1, a, b);
    x := (k, y.1);
  }

  lemma {:induction false} PlacedSameSize(agenda: seq<Coordinate>, left: set<(nat, nat)>, right: set<(Coordinate, nat)>)
    requires Distinct(agenda)
    requires forall x | x in left :: x.0 < |agenda| && (agenda[x.0], x.1) in right
    requires forall y | y in right :: exists x :: x in left && x.0 < |agenda| && agenda[x.0] == y.0 && x.1 == y.1
    ensures |left| == |right|
  {
    var f: ((nat, nat)) -> (Coordinate, nat) := Placed(agenda);
    forall y | y in right ensures exists x :: x in left && f(x) == y {
      var x :| x in left && x.0 < |agenda| && agenda[x.0] == y.0 && x.1 == y.1;
      assert f(x) == y;
    }
    SameSize<(nat, nat), (Coordinate, nat)>(left, right, f);
  }

  lemma {:induction false} FollowingMatches(m: Manifest, al: Allocation, id: Coordinate -> string, a: nat, b: nat)
    requires |m.arms| >= 2 && Distinct(ArmIds(m.arms)) && Ordered(|m.arms|, al) && Scheduled(m, al, id)
    requires a < |m.arms| && b < |m.arms|
    ensures |BlocksFollowing(m, m.arms[a], m.arms[b])| == |Carryovers(al.orders, a, b)|
  {
    AgendaDistinct(al.tasks, al.second);
    AsManyBlocks(m, al, id);
    var (left, right) := (BlocksFollowing(m, m.arms[a], m.arms[b]), Carryovers(al.orders, a, b));
    forall x | x in left ensures x.0 < |m.blocks| && (Agenda(al.tasks, al.second)[x.0], x.1) in right {
      FollowsAt(m, al, id, x.0, x.1, a, b);
    }
    hide Ordered, Agenda, Scheduled, ArmIds, Distinct, BlocksFollowing;
    forall y | y in right
      ensures exists x :: x in left && x.0 < |m.blocks| && Agenda(al.tasks, al.second)[x.0] == y.0 && x.1 == y.1
    {
      var x := FollowingFinds(m, al, id, a, b, y);
    }
    PlacedSameSize(Agenda(al.tasks, al.second), left, right);
  }

  /** Over the blocks of the campaign, every arm runs at every position, and immediately follows
      every other arm, its share of the complete cycles or at most the slack more. */
  lemma {:induction false} ArmsBalancedOverBlocks(m: Manifest, al: Allocation, id: Coordinate -> string, j: nat,
      a: nat, b: nat)
    requires |m.arms| >= 2 && Distinct(ArmIds(m.arms)) && Ordered(|m.arms|, al) && Scheduled(m, al, id)
    requires j < |m.arms| && a < |m.arms| && b < |m.arms| && a != b
    ensures var n := |m.arms|;
      && NearlyEqual(|BlocksRunning(m, j, m.arms[a])|, n, Cycles(n, |m.blocks|), Slack(n, al.extra, al.windowed))
      && NearlyEqual(|BlocksFollowing(m, m.arms[a], m.arms[b])|, n, Cycles(n, |m.blocks|),
           Slack(n, al.extra, al.windowed))
  {
    hide BlocksRunning, BlocksFollowing, Scheduled, Allocated, NearlyEqual, Slack, Cycles, IsWindow, Distinct, ArmIds;
    AsManyBlocks(m, al, id);
    AgendaIsComplete(al.tasks, al.second);
    RunningMatches(m, al, id, j, a);
    FollowingMatches(m, al, id, a, b);
    OrdersBalanced(|m.arms|, al, j, a, b);
  }

  lemma {:induction false} OrdersBalanced(n: nat, al: Allocation, j: nat, a: nat, b: nat)
    requires n >= 2 && Ordered(n, al) && j < n && a < n && b < n && a != b
    ensures var cycles := Cycles(n, |al.tasks| + |al.second|);
      && NearlyEqual(|AtPosition(al.orders, j, a)|, n, cycles, Slack(n, al.extra, al.windowed))
      && NearlyEqual(|Carryovers(al.orders, a, b)|, n, cycles, Slack(n, al.extra, al.windowed))
  {
    hide Allocated, NearlyEqual, Slack, Cycles, IsWindow, Distinct, AtPosition, Carryovers, Coordinates;
    PositionsBalanced(n, al.tasks, al.second, al.orders, al.rowOf, al.extra, al.windowed, al.start, al.up, al.reversed,
        j, a);
    CarryoverBalanced(n, al.tasks, al.second, al.orders, al.rowOf, al.extra, al.windowed, al.start, al.up, al.reversed,
        a, b);
  }

  // -------------------------------------------------------------- cell names

  function BlockIds(blocks: seq<Block>): (ids: seq<string>)
    ensures |ids| == |blocks|
  {
    seq(|blocks|, k requires 0 <= k < |blocks| => blocks[k].blockId)
  }

  /** Cells carry their block's coordinates and no arm twice. */
  ghost predicate Uniform(b: Block) {
    && (forall c | c in b.cells :: c.blockId == b.blockId && c.taskId == b.taskId && c.replicateId == b.replicateId)
    && (forall i, j | 0 <= i < j < |b.cells| :: b.cells[i].arm.armId != b.cells[j].arm.armId)
  }

  ghost predicate WellFormed(blocks: seq<Block>) {
    Distinct(BlockIds(blocks)) && forall b | b in blocks :: Uniform(b)
  }

  function NamesBy<K>(cells: seq<Cell>, f: Cell -> K): (keys: seq<K>)
    ensures |keys| == |cells|
  {
    seq(|cells|, k requires 0 <= k < |cells| => f(cells[k]))
  }

  /** f names a cell's block and arm. */
  ghost predicate Separates<K(!new)>(f: Cell -> K, cells: seq<Cell>) {
    forall a, b | a in cells && b in cells && f(a) == f(b) :: a.blockId == b.blockId && a.arm.armId == b.arm.armId
  }

  lemma {:induction false} CellsInBlocks(blocks: seq<Block>, c: Cell)
    ensures c in CellsOf(blocks) <==> exists b :: b in blocks && c in b.cells
  {
    if blocks != [] {
      var (head, last) := (blocks[..|blocks| - 1], blocks[|blocks| - 1]);
      CellsInBlocks(head, c);
      assert blocks == head + [last];
    }
  }

  lemma {:induction false} KeysDistinct<K(!new)>(blocks: seq<Block>, f: Cell -> K)
    requires WellFormed(blocks) && Separates(f, CellsOf(blocks))
    ensures Distinct(NamesBy(CellsOf(blocks), f))
  {
    if blocks != [] {
      var (head, last) := (blocks[..|blocks| - 1], blocks[|blocks| - 1]);
      assert blocks == head + [last];
      LastIsNew(BlockIds(blocks));
      assert BlockIds(head) == BlockIds(blocks)[..|head|];
      KeysDistinct(head, f);
      var (before, own) := (NamesBy(CellsOf(head), f), NamesBy(last.cells, f));
      assert NamesBy(CellsOf(blocks), f) == before + own;
      OwnKeysDistinct(last, f);
      forall k | k in own ensures k !in before {
        if k in before {
          var i :| 0 <= i < |own| && own[i] == k;
          var j :| 0 <= j < |before| && before[j] == k;
          ForeignBlock(head, last, CellsOf(head)[j], last.cells[i]);
        }
      }
      DistinctAppend(before, own);
    }
  }

  lemma {:induction false} OwnKeysDistinct<K(!new)>(b: Block, f: Cell -> K)
    requires Uniform(b) && Separates(f, b.cells)
    ensures Distinct(NamesBy(b.cells, f))
  {
    forall i, j | 0 <= i < j < |b.cells| ensures f(b.cells[i]) != f(b.cells[j]) {
      assert b.cells[i] in b.cells && b.cells[j] in b.cells;
    }
  }

  lemma {:induction false} ForeignBlock(head: seq<Block>, last: Block, a: Cell, b: Cell)
    requires WellFormed(head + [last]) && a in CellsOf(head) && b in last.cells
    ensures a.blockId != b.blockId
  {
    CellsInBlocks(head, a);
    var block :| block in head && a in block.cells;
    assert block in head + [last] && last in head + [last];
    var i :| 0 <= i < |head| && head[i] == block;
    assert BlockIds(head + [last])[i] != BlockIds(head + [last])[|head|];
  }

  /** Text before a first colon, and after a last one, can be read back. */
  lemma {:induction false} SplitAtColon(x: string, y: string, s: string, t: string)
    requires ':' !in x && ':' !in y && x + ":" + s == y + ":" + t
    ensures x == y && s == t
  {
    var (left, right) := (x + ":" + s, y + ":" + t);
    assert left[|x|] == ':' && right[|y|] == ':';
    assert forall k | 0 <= k < |x| :: left[k] == x[k] && x[k] in x;
    assert forall k | 0 <= k < |y| :: right[k] == y[k] && y[k] in y;
    assert |x| == |y|;
    assert x == left[..|x|] && y == right[..|y|] && s == left[|x| + 1..] && t == right[|y| + 1..];
  }

  lemma {:induction false} ColonNotLater(x: string, y: string, s: string, t: string)
    requires ':' !in t && x + ":" + s == y + ":" + t
    ensures |x| <= |y|
  {
    var (left, right) := (x + ":" + s, y + ":" + t);
    assert left[|x|] == ':';
    forall k | |y| < k < |right| ensures right[k] != ':' {
      assert right[k] == t[k - |y| - 1];
    }
  }

  lemma {:induction false} SplitAtLastColon(x: string, y: string, s: string, t: string)
    requires ':' !in s && ':' !in t && x + ":" + s == y + ":" + t
    ensures x == y && s == t
  {
    ColonNotLater(x, y, s, t);
    ColonNotLater(y, x, t, s);
    var (left, right) := (x + ":" + s, y + ":" + t);
    assert x == left[..|x|] && y == right[..|x|] && s == left[|x| + 1..] && t == right[|x| + 1..];
  }

  /** The key of a cell names its block, arm and replicate, whatever the arm is called. */
  lemma {:induction false} KeyNamesCell(a: Cell, b: Cell)
    requires ':' !in a.blockId && ':' !in b.blockId && ':' !in a.replicateId && ':' !in b.replicateId
    requires CellKey(a) == CellKey(b)
    ensures a.blockId == b.blockId && a.arm.armId == b.arm.armId && a.replicateId == b.replicateId
  {
    var (p, q) := (a.arm.armId + ":" + a.replicateId, b.arm.armId + ":" + b.replicateId);
    assert CellKey(a) == a.blockId + ":" + p && CellKey(b) == b.blockId + ":" + q;
    SplitAtColon(a.blockId, b.blockId, p, q);
    SplitAtLastColon(a.arm.armId, b.arm.armId, a.replicateId, b.replicateId);
  }

  /** Block ids tell the coordinates of a campaign apart and are plain hexadecimal. */
  ghost predicate GoodIds(al: Allocation, id: Coordinate -> string) {
    && (forall c, d | c in Agenda(al.tasks, al.second) && d in Agenda(al.tasks, al.second) && id(c) == id(d) :: c == d)
    && (forall c | c in Agenda(al.tasks, al.second) :: ':' !in id(c))
  }

  lemma {:induction false} PlanIsWellFormed(m: Manifest, al: Allocation, id: Coordinate -> string)
    requires m.arms != [] && Distinct(ArmIds(m.arms)) && Ordered(|m.arms|, al) && Scheduled(m, al, id)
      && GoodIds(al, id)
    ensures WellFormed(m.blocks)
  {
    var agenda := Agenda(al.tasks, al.second);
    AgendaDistinct(al.tasks, al.second);
    forall k: nat | k < |m.blocks| ensures m.blocks[k].blockId == id(agenda[k]) && Uniform(m.blocks[k]) {
      assert BlockMatches(m, k, agenda[k], al.orders, id);
      BlockRunsEveryArm(m, al, id, k);
    }
    hide Ordered, Scheduled, Uniform;
    forall i, j | 0 <= i < j < |m.blocks| ensures BlockIds(m.blocks)[i] != BlockIds(m.blocks)[j] {
      assert agenda[i] in agenda && agenda[j] in agenda && agenda[i] != agenda[j];
    }
  }

  /** Every cell of a planned campaign has its own key and its own id. */
  lemma {:induction false} PlanNamesCellsOnce(m: Manifest, al: Allocation, id: Coordinate -> string)
    requires m.arms != [] && Distinct(ArmIds(m.arms)) && Ordered(|m.arms|, al) && Scheduled(m, al, id)
      && GoodIds(al, id)
    ensures Distinct(NamesBy(CellsOf(m.blocks), CellKey)) && Distinct(NamesBy(CellsOf(m.blocks), IdOf))
  {
    PlanIsWellFormed(m, al, id);
    var cells := CellsOf(m.blocks);
    forall c | c in cells ensures ':' !in c.blockId && ':' !in c.replicateId {
      CellsInBlocks(m.blocks, c);
      var b :| b in m.blocks && c in b.cells;
      var k :| 0 <= k < |m.blocks| && m.blocks[k] == b;
      var agenda := Agenda(al.tasks, al.second);
      assert BlockMatches(m, k, agenda[k], al.orders, id) && agenda[k] in agenda;
    }
    hide Ordered, Scheduled, WellFormed, CellKey;
    forall a, b | a in cells && b in cells && CellKey(a) == CellKey(b)
      ensures a.blockId == b.blockId && a.arm.armId == b.arm.armId
    {
      KeyNamesCell(a, b);
    }
    KeysDistinct(m.blocks, CellKey);
    KeysDistinct(m.blocks, IdOf);
  }
}
