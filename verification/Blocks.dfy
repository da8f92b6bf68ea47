/** The paired-block schedule (src/shapeflow/campaign/schedule.py:52-234, 491-496): one block per
    (task, replicate), every arm once in each, built from the allocation of Schedule. Digests are
    uninterpreted; `blockId` is the id derived from a block's coordinates. */
module Blocks {
  import opened Randomization
  import opened Sorting
  import opened WilliamsBalance
  import opened Schedule

  datatype ArmSpec = ArmSpec(armId: string, pageVariant: string, closeVariant: string)

  datatype Cell = Cell(blockId: string, taskId: string, arm: ArmSpec, seed: int, replicateId: string, orderIndex: nat)

  datatype Block = Block(blockId: string, taskId: string, replicateId: string, cells: seq<Cell>)

  datatype Manifest = Manifest(binding: string, protocolSha: string, split: string, blocks: seq<Block>,
      arms: seq<ArmSpec>, seeds: seq<int>, layer: string, claimScope: string)

  /** Every scheduled cell, block by block. */
  function CellsOf(blocks: seq<Block>): seq<Cell> {
    if blocks == [] then [] else CellsOf(blocks[..|blocks| - 1]) + blocks[|blocks| - 1].cells
  }

  /** The tuple a frozen cell is matched by. */
  type CellId = (string, string, string, string)

  function IdOf(cell: Cell): CellId { (cell.blockId, cell.taskId, cell.arm.armId, cell.replicateId) }

  /** The key cells are assigned by. */
  function CellKey(cell: Cell): string { cell.blockId + ":" + cell.arm.armId + ":" + cell.replicateId }

  // ------------------------------------------------------------ second seeds

  function SeedRank(h: Hashes, binding: string, split: string, task: string): nat {
    h.derive([binding, split, "second_seed_rank", task])
  }

  predicate RankLe(h: Hashes, binding: string, split: string, a: string, b: string) {
    var (x, y) := (SeedRank(h, binding, split, a), SeedRank(h, binding, split, b));
    x < y || (x == y && StringLe(a, b))
  }

  /** int(n * fraction + 0.5), exactly. */
  function SecondCount(n: nat, fraction: real): (k: nat)
    requires 0.0 <= fraction <= 1.0
    ensures k <= n
    ensures k as real - 0.5 <= n as real * fraction < k as real + 0.5
  {
    assert n as real * fraction <= n as real * 1.0;
    (n as real * fraction + 0.5).Floor
  }

  ghost predicate RankedFirst(h: Hashes, binding: string, split: string, chosen: set<string>, tasks: seq<string>) {
    forall s, t | s in chosen && t in tasks && t !in chosen ::
      var x := h.derive([binding, split, "second_seed_rank", s]);
      var y := h.derive([binding, split, "second_seed_rank", t]);
      x < y || (x == y && StringLe(s, t))
  }

  method SecondSeedTasks(tasks: seq<string>, count: nat, binding: string, split: string, h: Hashes)
      returns (chosen: set<string>)
    requires Distinct(tasks) && count <= |tasks|
    ensures |chosen| == count && (forall t | t in chosen :: t in tasks) && RankedFirst(h, binding, split, chosen, tasks)
  {
    var le := (a, b) => RankLe(h, binding, split, a, b);
    var ranked := Sort(tasks, le);
    StringOrder();
    assert TotalPreorder(le);
    SortSorts(tasks, le);
    DistinctByMultiset(tasks, ranked);
    chosen := set t | t in ranked[..count];
    DistinctLength(ranked[..count], chosen);
    RankedPrefix(tasks, ranked, count, binding, split, h);
  }

  lemma {:induction false} RankedPrefix(tasks: seq<string>, ranked: seq<string>, count: nat, binding: string,
      split: string, h: Hashes)
    requires count <= |ranked| && forall t | t in tasks :: t in ranked
    requires forall i, j | 0 <= i < j < |ranked| :: RankLe(h, binding, split, ranked[i], ranked[j])
    ensures RankedFirst(h, binding, split, (set t | t in ranked[..count]), tasks)
  {
    hide StringLe;
    var chosen := set t | t in ranked[..count];
    forall k | 0 <= k < count ensures ranked[k] in chosen { assert ranked[..count][k] == ranked[k]; }
    forall s, t | s in chosen && t in tasks && t !in chosen
      ensures RankLe(h, binding, split, s, t)
    {
      var i :| 0 <= i < count && ranked[..count][i] == s;
      var j :| 0 <= j < |ranked| && ranked[j] == t;
      assert ranked[i] == s && RankLe(h, binding, split, ranked[i], ranked[j]);
    }
  }

  function ReplicateId(replicate: nat): string { if replicate == 0 then "0" else "1" }

  function SeedFor(seeds: seq<int>, replicate: nat): int { if seeds == [] then 0 else seeds[replicate % |seeds|] }

  ghost predicate Fits(row: seq<nat>, arms: seq<ArmSpec>) {
    |row| == |arms| && forall k | 0 <= k < |row| :: row[k] < |arms|
  }

  /** The block of one coordinate: position k runs arm row[k]. */
  function BlockFor(id: string, c: Coordinate, arms: seq<ArmSpec>, seeds: seq<int>, row: seq<nat>): Block
    requires Fits(row, arms)
  {
    Block(id, c.0, ReplicateId(c.1),
      seq(|row|, k requires 0 <= k < |row| => Cell(id, c.0, arms[row[k]], SeedFor(seeds, c.1), ReplicateId(c.1), k)))
  }

  /** The coordinates in schedule order. */
  function Agenda(tasks: seq<string>, second: set<string>): seq<Coordinate> {
    if tasks == [] then [] else
      var t := tasks[|tasks| - 1];
      Agenda(tasks[..|tasks| - 1], second) + [(t, 0)] + (if t in second then [(t, 1)] else [])
  }

  lemma {:induction false} AgendaHolds(tasks: seq<string>, second: set<string>, c: Coordinate)
    ensures c in Agenda(tasks, second) <==> c.0 in tasks && (c.1 == 0 || (c.1 == 1 && c.0 in second))
  {
    if tasks != [] {
      AgendaHolds(tasks[..|tasks| - 1], second, c);
    }
  }

  lemma {:induction false} AgendaDistinct(tasks: seq<string>, second: set<string>)
    requires Distinct(tasks)
    ensures Distinct(Agenda(tasks, second))
  {
    if tasks != [] {
      LastIsNew(tasks);
      var (head, t) := (tasks[..|tasks| - 1], tasks[|tasks| - 1]);
      AgendaDistinct(head, second);
      AgendaHolds(head, second, (t, 0));
      AgendaHolds(head, second, (t, 1));
      var own := [(t, 0)] + (if t in second then [(t, 1)] else []);
      assert Distinct(own);
      hide Distinct;
      DistinctAppend(Agenda(head, second), own);
      assert Agenda(tasks, second) == Agenda(head, second) + own;
    }
  }

  lemma {:induction false} AgendaSize(tasks: seq<string>, second: set<string>)
    requires Distinct(tasks)
    ensures |Agenda(tasks, second)| == |tasks| + |set t | t in tasks && t in second|
  {
    if tasks != [] {
      LastIsNew(tasks);
      hide Distinct;
      var (head, t) := (tasks[..|tasks| - 1], tasks[|tasks| - 1]);
      AgendaSize(head, second);
      var (seen, earlier) := (set x | x in tasks && x in second, set x | x in head && x in second);
      assert seen == if t in second then earlier + {t} else earlier;
    }
  }

  /** The coordinates are scheduled exactly once each. */
  lemma {:induction false} AgendaIsComplete(tasks: seq<string>, second: set<string>)
    requires Distinct(tasks) && forall t | t in second :: t in tasks
    ensures Distinct(Agenda(tasks, second)) && |Agenda(tasks, second)| == |tasks| + |second|
    ensures forall c :: c in Agenda(tasks, second) <==> c in Coordinates(tasks, second)
  {
    AgendaDistinct(tasks, second);
    AgendaSize(tasks, second);
    assert second == set t | t in tasks && t in second;
    forall c: Coordinate ensures c in Agenda(tasks, second) <==> c in Coordinates(tasks, second) {
      AgendaHolds(tasks, second, c);
    }
  }

  /** In order of the tasks, and for each task the first replicate before the second. */
  lemma {:induction false} AgendaInTaskOrder(tasks: seq<string>, second: set<string>, i: nat, j: nat)
    requires Distinct(tasks) && i < j < |Agenda(tasks, second)|
    ensures var (a, b) := (Agenda(tasks, second)[i], Agenda(tasks, second)[j]);
      if a.0 == b.0 then a.1 == 0 && b.1 == 1
      else exists k: nat :: k < |tasks| && tasks[k] == b.0 && a.0 in tasks[..k]
  {
    hide Distinct;
    var n := |tasks| - 1;
    var (head, t) := (tasks[..n], tasks[n]);
    var before := Agenda(head, second);
    assert Distinct(head) && t !in head by { LastIsNew(tasks); }
    var a := Agenda(tasks, second)[i];
    if j < |before| {
      AgendaInTaskOrder(head, second, i, j);
      if a.0 != before[j].0 {
        var k: nat :| k < n && head[k] == before[j].0 && a.0 in head[..k];
        assert head[..k] == tasks[..k];
      }
    } else if i < |before| {
      AgendaHolds(head, second, a);
      assert tasks[n] == t && a.0 in tasks[..n];
    }
  }

  // ------------------------------------------------------------- build_blocks

  datatype PlanError =
    | BadBinding | BadProtocol | NoArms | BadFraction | OneSeed | NoComparator | DuplicateTasks | DuplicateArms

  datatype PlanResult = Planned(manifest: Manifest) | Unplannable(error: PlanError)

  datatype Guard = Pass | Fail(error: PlanError)

  predicate IsSha256(s: string) { |s| == 64 && forall c | c in s :: c in "0123456789abcdef" }

  predicate IsComparator(a: ArmSpec) { a.armId == "P0" || (a.pageVariant == "P0" && a.closeVariant == "P0") }

  function ArmIds(arms: seq<ArmSpec>): (ids: seq<string>)
    ensures |ids| == |arms|
  {
    seq(|arms|, k requires 0 <= k < |arms| => arms[k].armId)
  }

  /** 64 lower-case hexadecimal digits. */
  ghost predicate HexDigest(s: string) {
    |s| == 64 && forall k | 0 <= k < 64 :: '0' <= s[k] <= '9' || 'a' <= s[k] <= 'f'
  }

  lemma {:induction false} IsHexDigest(s: string)
    ensures IsSha256(s) <==> HexDigest(s)
  {
    if IsSha256(s) {
      forall k | 0 <= k < 64 ensures '0' <= s[k] <= '9' || 'a' <= s[k] <= 'f' {
        assert s[k] in "0123456789abcdef";
      }
    }
    if HexDigest(s) {
      forall c | c in s ensures c in "0123456789abcdef" { HexIn(c); }
    }
  }

  lemma {:induction false} HexIn(c: char)
    requires '0' <= c <= '9' || 'a' <= c <= 'f'
    ensures c in "0123456789abcdef"
  {
    var digits := "0123456789abcdef";
    assert digits[if c <= '9' then c as int - '0' as int else c as int - 'a' as int + 10] == c;
  }

  /** The first condition the inputs fail, if any. */
  ghost function PlanGuard(binding: string, protocolSha: string, tasks: seq<string>, arms: seq<ArmSpec>,
      seeds: seq<int>, fraction: real): Guard {
    if !HexDigest(binding) then Fail(BadBinding)
    else if !HexDigest(protocolSha) then Fail(BadProtocol)
    else if arms == [] then Fail(NoArms)
    else if !(0.0 <= fraction <= 1.0) then Fail(BadFraction)
    else if fraction > 0.0 && |seeds| < 2 then Fail(OneSeed)
    else if forall a | a in arms :: a.armId != "P0" && (a.pageVariant != "P0" || a.closeVariant != "P0")
    then Fail(NoComparator)
    else if !Distinct(tasks) then Fail(DuplicateTasks)
    else if !Distinct(ArmIds(arms)) then Fail(DuplicateArms)
    else Pass
  }

  /** How the plan was made: the sorted tasks, the tasks with a second seed, the arm order of
      every coordinate, and the evidence the balance theorems ask for. */
  datatype Allocation = Allocation(tasks: seq<string>, second: set<string>, orders: map<Coordinate, seq<nat>>,
      rowOf: map<Coordinate, nat>, extra: seq<nat>, windowed: bool, start: nat, up: bool, reversed: bool)

  ghost predicate Ordered(n: nat, al: Allocation) {
    && Distinct(al.tasks) && (forall t | t in al.second :: t in al.tasks)
    && (n == 1 ==>
         al.orders.Keys == Coordinates(al.tasks, al.second) && forall c | c in al.orders :: al.orders[c] == [0])
    && (n >= 2 ==> Allocated(n, al.tasks, al.second, al.orders, al.rowOf, al.extra))
    && (al.windowed ==> n >= 2 && IsWindow(n, al.extra, al.start, al.up, al.reversed))
  }

  ghost predicate Scheduled(m: Manifest, al: Allocation, id: Coordinate -> string) {
    var agenda := Agenda(al.tasks, al.second);
    && |m.blocks| == |agenda|
    && forall k | 0 <= k < |agenda| :: BlockMatches(m, k, agenda[k], al.orders, id)
  }

  ghost predicate BlockMatches(m: Manifest, k: nat, c: Coordinate, orders: map<Coordinate, seq<nat>>,
      id: Coordinate -> string) {
    && k < |m.blocks| && c in orders && Fits(orders[c], m.arms)
    && m.blocks[k] == BlockFor(id(c), c, m.arms, m.seeds, orders[c])
  }

  lemma {:induction false} OrdersFit(n: nat, al: Allocation, c: Coordinate)
    requires 1 <= n && Ordered(n, al) && c in Coordinates(al.tasks, al.second)
    ensures c in al.orders && IsPermutation(al.orders[c], n)
  {
    if n >= 2 {
      assert c in al.rowOf;
      RowsArePermutations(n, al.rowOf[c]);
    }
  }

  /** build_blocks. */
  method BuildBlocks(binding: string, protocolSha: string, split: string, taskIds: seq<string>, arms: seq<ArmSpec>,
      seeds: seq<int>, layer: string, claimScope: string, fraction: real, h: Hashes, blockId: Coordinate -> string)
    returns (r: PlanResult, ghost al: Allocation)
    ensures var guard := PlanGuard(binding, protocolSha, taskIds, arms, seeds, fraction);
      if guard.Fail? then r == Unplannable(guard.error) else r.Planned?
    ensures r.Planned? ==>
      var m := r.manifest;
      && m == Manifest(binding, protocolSha, split, m.blocks, arms, seeds, layer, claimScope)
      && al.tasks == Sort(taskIds, StringLe) && Ordered(|arms|, al) && Scheduled(m, al, blockId)
      && |al.second| == SecondCount(|taskIds|, fraction) && (al.second != {} ==> |seeds| >= 2)
      && RankedFirst(h, binding, split, al.second, al.tasks)
  {
    al := Allocation([], {}, map[], map[], [], false, 0, true, false);
    IsHexDigest(binding);
    IsHexDigest(protocolSha);
    NoSecondSeeds(|taskIds|, fraction);
    assert (exists a :: a in arms && IsComparator(a)) <==>
      !forall a | a in arms :: a.armId != "P0" && (a.pageVariant != "P0" || a.closeVariant != "P0");
    hide IsSha256, HexDigest, IsComparator, SecondCount, RankedFirst, Ordered, Scheduled, StringLe, Sort, IsWindow;
    if !IsSha256(binding) { return Unplannable(BadBinding), al; }
    if !IsSha256(protocolSha) { return Unplannable(BadProtocol), al; }
    if arms == [] { return Unplannable(NoArms), al; }
    if !(0.0 <= fraction <= 1.0) { return Unplannable(BadFraction), al; }
    if fraction > 0.0 && |seeds| < 2 { return Unplannable(OneSeed), al; }
    if !(exists a :: a in arms && IsComparator(a)) { return Unplannable(NoComparator), al; }
    var tasks := Sort(taskIds, StringLe);
    SortKeepsDistinct(taskIds);
    DistinctBySize(tasks);
    if |tasks| != |set t | t in tasks| { return Unplannable(DuplicateTasks), al; }
    var armIds := ArmIds(arms);
    DistinctBySize(armIds);
    if |armIds| != |set a | a in armIds| { return Unplannable(DuplicateArms), al; }
    var second := SecondSeedTasks(tasks, SecondCount(|tasks|, fraction), binding, split, h);
    var orders;
    orders, al := AssignOrders(binding, split, tasks, second, |arms|, h);
    var blocks := ListBlocks(tasks, second, orders, arms, seeds, blockId, al);
    r := Planned(Manifest(binding, protocolSha, split, blocks, arms, seeds, layer, claimScope));
  }

  /** The call of _balanced_williams_assignments, and its evidence. */
  method AssignOrders(binding: string, split: string, tasks: seq<string>, second: set<string>, n: nat, h: Hashes)
      returns (orders: map<Coordinate, seq<nat>>, ghost al: Allocation)
    requires n >= 1 && Distinct(tasks) && forall t | t in second :: t in tasks
    ensures al.tasks == tasks && al.second == second && al.orders == orders && Ordered(n, al)
  {
    var policy;
    ghost var rowOf, extra, start, up, reversed;
    orders, policy, rowOf, extra, start, up, reversed :=
      BalancedWilliamsAssignments(binding, split, tasks, second, n, h);
    al := Allocation(tasks, second, orders, rowOf, extra, policy == CyclicWindow, start, up, reversed);
  }

  lemma {:induction false} NoSecondSeeds(n: nat, fraction: real)
    ensures fraction == 0.0 ==> SecondCount(n, fraction) == 0
  {
    if fraction == 0.0 { assert n as real * fraction == 0.0; }
  }

  lemma {:induction false} SortKeepsDistinct(tasks: seq<string>)
    ensures Distinct(Sort(tasks, StringLe)) <==> Distinct(tasks)
  {
    if Distinct(tasks) {
      DistinctByMultiset(tasks, Sort(tasks, StringLe));
    }
    if Distinct(Sort(tasks, StringLe)) {
      DistinctByMultiset(Sort(tasks, StringLe), tasks);
    }
  }

  method ListBlocks(tasks: seq<string>, second: set<string>, orders: map<Coordinate, seq<nat>>, arms: seq<ArmSpec>,
      seeds: seq<int>, blockId: Coordinate -> string, ghost al: Allocation) returns (blocks: seq<Block>)
    requires arms != [] && Ordered(|arms|, al) && al.tasks == tasks && al.second == second && al.orders == orders
    ensures forall m: Manifest | m.blocks == blocks && m.arms == arms && m.seeds == seeds :: Scheduled(m, al, blockId)
  {
    hide Ordered, IsPermutation, BlockFor, Fits;
    blocks := [];
    ghost var listed: seq<Coordinate> := [];
    for i := 0 to |tasks|
      invariant listed == Agenda(tasks[..i], second) && Listed(blocks, listed, orders, arms, seeds, blockId)
    {
      var task := tasks[i];
      assert tasks[..i + 1][..i] == tasks[..i];
      var replicates := if task in second then [0, 1] else [0];
      ghost var before := listed;
      for j := 0 to |replicates|
        invariant listed == before + seq(j, k requires 0 <= k < j => (task, replicates[k]))
        invariant Listed(blocks, listed, orders, arms, seeds, blockId)
      {
        var c := (task, replicates[j]);
        RowFits(|arms|, al, c, arms);
        blocks := blocks + [BlockFor(blockId(c), c, arms, seeds, orders[c])];
        listed := listed + [c];
      }
      assert listed == before + [(task, 0)] + (if task in second then [(task, 1)] else []);
    }
    assert tasks[..|tasks|] == tasks;
  }

  ghost predicate Listed(blocks: seq<Block>, listed: seq<Coordinate>, orders: map<Coordinate, seq<nat>>,
      arms: seq<ArmSpec>, seeds: seq<int>, blockId: Coordinate -> string)
  {
    |blocks| == |listed| && forall k | 0 <= k < |listed| ::
      listed[k] in orders && Fits(orders[listed[k]], arms)
        && blocks[k] == BlockFor(blockId(listed[k]), listed[k], arms, seeds, orders[listed[k]])
  }

  lemma {:induction false} RowFits(n: nat, al: Allocation, c: Coordinate, arms: seq<ArmSpec>)
    requires 1 <= n == |arms| && Ordered(n, al)
    requires c.0 in al.tasks && (c.1 == 0 || (c.1 == 1 && c.0 in al.second))
    ensures c in al.orders && Fits(al.orders[c], arms)
  {
    OrdersFit(n, al, c);
  }
}
