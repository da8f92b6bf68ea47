/** The frozen partition of a campaign over lanes (src/shapeflow/campaign/sharding.py:138-244).
    Shard numbers are integers throughout; digests are uninterpreted. */
module Sharding {
  import opened Randomization
  import opened Sorting
  import opened LaneAssignment
  import opened Blocks
  import opened BlockBalance

  datatype Lane = Lane(shardId: int, gpuUuid: string, vllmPort: int, providerPort: int, runnerRoot: string,
      servesPaid: bool)

  datatype ShardBody = ShardBody(binding: string, protocolSha: string, scheduleSha: string, stackSha: string,
      split: string, layer: string, lanes: seq<Lane>, taskCosts: map<string, real>, taskToShard: map<string, int>,
      cellsByShard: map<int, seq<string>>, blocksByShard: map<int, seq<string>>, totalCells: nat)

  datatype ShardManifest = ShardManifest(body: ShardBody, recorded: string)

  datatype BuildError = NoLane | LaneNumbers | SharedGpu | SharedPort | SharedRoot | PaidLanes | MissingCost | StrayCell

  datatype BuildResult = Built(manifest: ShardManifest) | Unbuilt(error: BuildError)

  function Project<T>(lanes: seq<Lane>, f: Lane -> T): (r: seq<T>)
    ensures |r| == |lanes|
  {
    seq(|lanes|, k requires 0 <= k < |lanes| => f(lanes[k]))
  }

  ghost predicate Numbered(ids: seq<int>) {
    Distinct(ids) && forall id :: id in ids <==> 0 <= id < |ids|
  }

  /** Lanes that are separate machines, one of which may spend. */
  ghost predicate SeparateLanes(lanes: seq<Lane>) {
    && lanes != []
    && Numbered(Project(lanes, (l: Lane) => l.shardId))
    && Distinct(Project(lanes, (l: Lane) => l.gpuUuid)) && (forall l | l in lanes :: "GPU-" <= l.gpuUuid)
    && Distinct(Project(lanes, (l: Lane) => l.vllmPort) + Project(lanes, (l: Lane) => l.providerPort))
    && Distinct(Project(lanes, (l: Lane) => l.runnerRoot))
    && exists k: nat :: OnlyPaid(lanes, k)
  }

  function TaskSet(blocks: seq<Block>): set<string> { set b | b in blocks :: b.taskId }

  /** Every cell belongs to a task some block is scheduled for. */
  ghost predicate CellsHaveTasks(m: Manifest) {
    forall c | c in CellsOf(m.blocks) :: c.taskId in TaskSet(m.blocks)
  }

  /** The keys of the cells whose task is on lane s, in schedule order. */
  function KeysOn(cells: seq<Cell>, assignment: map<string, int>, s: int): seq<string> {
    if cells == [] then [] else
      var (head, last) := (KeysOn(cells[..|cells| - 1], assignment, s), cells[|cells| - 1]);
      if last.taskId in assignment && assignment[last.taskId] == s then head + [CellKey(last)] else head
  }

  function BlocksOn(blocks: seq<Block>, assignment: map<string, int>, s: int): seq<string> {
    if blocks == [] then [] else
      var (head, last) := (BlocksOn(blocks[..|blocks| - 1], assignment, s), blocks[|blocks| - 1]);
      if last.taskId in assignment && assignment[last.taskId] == s then head + [last.blockId] else head
  }

  /** A body that states the partition `assignment` of the campaign. */
  ghost predicate States(body: ShardBody, m: Manifest, scheduleSha: string, lanes: seq<Lane>,
      assignment: map<string, int>) {
    && body.lanes == lanes && body.scheduleSha == scheduleSha && body.binding == m.binding
    && body.split == m.split && body.layer == m.layer && body.totalCells == |CellsOf(m.blocks)|
    && body.taskToShard == assignment && assignment.Keys == TaskSet(m.blocks)
    && (forall t | t in assignment :: 0 <= assignment[t] < |lanes|)
    && (forall s :: s in body.cellsByShard <==> 0 <= s < |lanes|)
    && (forall s :: s in body.blocksByShard <==> 0 <= s < |lanes|)
    && (forall s | s in body.cellsByShard ::
         body.cellsByShard[s] == Sort(KeysOn(CellsOf(m.blocks), assignment, s), StringLe))
    && (forall s | s in body.blocksByShard ::
         body.blocksByShard[s] == Sort(BlocksOn(m.blocks, assignment, s), StringLe))
  }

  method NoneListed(laneCount: nat) returns (byShard: map<int, seq<string>>)
    ensures forall s :: s in byShard <==> 0 <= s < laneCount
    ensures forall s | s in byShard :: byShard[s] == []
  {
    byShard := map[];
    for s := 0 to laneCount
      invariant forall x :: x in byShard <==> 0 <= x < s
      invariant forall x | x in byShard :: byShard[x] == []
    {
      byShard := byShard[s := []];
    }
  }

  method ListCells(cells: seq<Cell>, assignment: map<string, int>, laneCount: nat)
      returns (ok: bool, byShard: map<int, seq<string>>)
    requires forall t | t in assignment :: 0 <= assignment[t] < laneCount
    ensures ok <==> forall c | c in cells :: c.taskId in assignment
    ensures ok ==> forall s :: s in byShard <==> 0 <= s < laneCount
    ensures ok ==> forall s | s in byShard :: byShard[s] == KeysOn(cells, assignment, s)
  {
    byShard := NoneListed(laneCount);
    for k := 0 to |cells|
      invariant forall c | c in cells[..k] :: c.taskId in assignment
      invariant forall s :: s in byShard <==> 0 <= s < laneCount
      invariant forall s | s in byShard :: byShard[s] == KeysOn(cells[..k], assignment, s)
    {
      var cell := cells[k];
      assert cells[..k + 1][..k] == cells[..k] && cells[..k + 1] == cells[..k] + [cell];
      if cell.taskId !in assignment {
        return false, byShard;
      }
      var s := assignment[cell.taskId];
      byShard := byShard[s := byShard[s] + [CellKey(cell)]];
    }
    assert cells[..|cells|] == cells;
    return true, byShard;
  }

  method ListBlocksOn(blocks: seq<Block>, assignment: map<string, int>, laneCount: nat)
      returns (byShard: map<int, seq<string>>)
    requires (forall t | t in assignment :: 0 <= assignment[t] < laneCount) && assignment.Keys == TaskSet(blocks)
    ensures forall s :: s in byShard <==> 0 <= s < laneCount
    ensures forall s | s in byShard :: byShard[s] == BlocksOn(blocks, assignment, s)
  {
    byShard := NoneListed(laneCount);
    for k := 0 to |blocks|
      invariant forall s :: s in byShard <==> 0 <= s < laneCount
      invariant forall s | s in byShard :: byShard[s] == BlocksOn(blocks[..k], assignment, s)
    {
      var block := blocks[k];
      assert blocks[..k + 1][..k] == blocks[..k] && block.taskId in TaskSet(blocks);
      var s := assignment[block.taskId];
      byShard := byShard[s := byShard[s] + [block.blockId]];
    }
    assert blocks[..|blocks|] == blocks;
  }

  function SortAll(byShard: map<int, seq<string>>): map<int, seq<string>> {
    map s | s in byShard :: Sort(byShard[s], StringLe)
  }

  /** What each refused listing of lanes has wrong. */
  ghost predicate LaneFault(e: BuildError, lanes: seq<Lane>) {
    match e
    case NoLane => lanes == []
    case LaneNumbers => !Numbered(Project(lanes, (l: Lane) => l.shardId))
    case SharedGpu =>
      !Distinct(Project(lanes, (l: Lane) => l.gpuUuid)) || exists l :: l in lanes && !("GPU-" <= l.gpuUuid)
    case SharedPort => !Distinct(Project(lanes, (l: Lane) => l.vllmPort) + Project(lanes, (l: Lane) => l.providerPort))
    case SharedRoot => !Distinct(Project(lanes, (l: Lane) => l.runnerRoot))
    case PaidLanes => forall k: nat :: !OnlyPaid(lanes, k)
    case _ => false
  }

  /** The lane checks; None when the lanes are separate. */
  method CheckLanes(lanes: seq<Lane>) returns (failed: seq<BuildError>)
    ensures failed == [] <==> SeparateLanes(lanes)
    ensures |failed| <= 1 && (failed != [] ==> LaneFault(failed[0], lanes))
  {
    if lanes == [] { return [NoLane]; }
    var ids := Project(lanes, (l: Lane) => l.shardId);
    var range := seq(|lanes|, k requires 0 <= k < |lanes| => k as int);
    NumberedBySort(ids, range);
    if Sort(ids, IntLe) != range { return [LaneNumbers]; }
    var gpus := Project(lanes, (l: Lane) => l.gpuUuid);
    DistinctBySize(gpus);
    if |set g | g in gpus| != |gpus| || exists l :: l in lanes && !("GPU-" <= l.gpuUuid) { return [SharedGpu]; }
    var ports := Project(lanes, (l: Lane) => l.vllmPort) + Project(lanes, (l: Lane) => l.providerPort);
    DistinctBySize(ports);
    if |set p | p in ports| != |ports| { return [SharedPort]; }
    var roots := Project(lanes, (l: Lane) => l.runnerRoot);
    DistinctBySize(roots);
    if |set r | r in roots| != |roots| { return [SharedRoot]; }
    var paid := CountPaid(lanes);
    OnePaid(lanes);
    if paid != 1 { return [PaidLanes]; }
    return [];
  }

  predicate IntLe(a: int, b: int) { a <= b }

  /** sorted(ids) == list(range(n)). */
  lemma {:induction false} NumberedBySort(ids: seq<int>, range: seq<int>)
    requires |range| == |ids| && forall k | 0 <= k < |range| :: range[k] == k
    ensures Sort(ids, IntLe) == range <==> Numbered(ids)
  {
    SortSorts(ids, IntLe);
    forall id ensures id in range <==> 0 <= id < |ids| {
      if 0 <= id < |ids| { assert range[id] == id; }
    }
    if Sort(ids, IntLe) == range {
      DistinctByMultiset(range, ids);
    }
    if Numbered(ids) {
      SameElements(ids, range);
      SortedUnique(Sort(ids, IntLe), range, IntLe);
    }
  }

  function CountPaid(lanes: seq<Lane>): nat {
    if lanes == [] then 0 else CountPaid(lanes[..|lanes| - 1]) + (if lanes[|lanes| - 1].servesPaid then 1 else 0)
  }

  lemma {:induction false} NonePaid(lanes: seq<Lane>)
    ensures CountPaid(lanes) == 0 <==> forall l | l in lanes :: !l.servesPaid
  {
    if lanes != [] {
      NonePaid(lanes[..|lanes| - 1]);
      assert lanes == lanes[..|lanes| - 1] + [lanes[|lanes| - 1]];
    }
  }

  ghost predicate OnlyPaid(lanes: seq<Lane>, k: nat) {
    k < |lanes| && lanes[k].servesPaid && forall j | 0 <= j < |lanes| && j != k :: !lanes[j].servesPaid
  }

  lemma {:induction false} OnePaid(lanes: seq<Lane>)
    ensures CountPaid(lanes) == 1 <==> exists k: nat :: OnlyPaid(lanes, k)
  {
    if lanes != [] {
      var (head, last) := (lanes[..|lanes| - 1], lanes[|lanes| - 1]);
      OnePaid(head);
      NonePaid(head);
      if last.servesPaid {
        if CountPaid(head) == 0 {
          forall j | 0 <= j < |lanes| && j != |head| ensures !lanes[j].servesPaid { assert head[j] in head; }
          assert OnlyPaid(lanes, |head|);
        } else {
          var l :| l in head && l.servesPaid;
          var j :| 0 <= j < |head| && head[j] == l;
          assert lanes[j].servesPaid && lanes[|head|].servesPaid;
        }
      } else if CountPaid(head) == 1 {
        var k: nat :| OnlyPaid(head, k);
        assert OnlyPaid(lanes, k);
      } else if exists k: nat :: OnlyPaid(lanes, k) {
        var k: nat :| OnlyPaid(lanes, k);
        assert OnlyPaid(head, k);
      }
    }
  }

  // ---------------------------------------------------------------- building

  /** No lane carries more than 4/3 - 1/(3m) of what the fullest lane of any other partition
      would carry; `ordered` lists the tasks. */
  ghost predicate Balanced(costs: Weights, assignment: Assignment, ordered: seq<string>, laneCount: nat) {
    && Covered(ordered, costs, assignment)
    && forall other, T, lane: nat | FitsWithin(ordered, costs, other, laneCount, T) && lane < laneCount ::
         WithinFourThirdsOf(laneCount, LaneLoad(ordered, costs, assignment, lane), T)
  }

  method PlaceTasks(costs: Weights, laneCount: nat, binding: string, h: Hashes)
      returns (assignment: Assignment, ghost ordered: seq<string>)
    requires laneCount >= 1
    ensures assignment.Keys == costs.Keys && (forall t | t in assignment :: assignment[t] < laneCount)
    ensures Lists(ordered, costs.Keys)
    ensures (forall t | t in costs :: costs[t] >= 0.0) ==> Balanced(costs, assignment, ordered, laneCount)
  {
    hide Distinct, FitsWithin, WithinFourThirdsOf, LaneLoad, Descending;
    var r;
    r, ordered := AssignTasksToLanes(costs, laneCount, binding, h);
    assignment := r.assignment;
  }

  method WriteBody(m: Manifest, lanes: seq<Lane>, costs: Weights, assignment: Assignment, stackSha: string,
      protocolSha: string, scheduleSha: string)
    returns (ok: bool, body: ShardBody)
    requires assignment.Keys == TaskSet(m.blocks) && forall t | t in assignment :: assignment[t] < |lanes|
    ensures ok <==> CellsHaveTasks(m)
    ensures ok ==>
      && States(body, m, scheduleSha, lanes, assignment) && body.taskCosts == costs
      && body.protocolSha == protocolSha && body.stackSha == stackSha
  {
    var listed, cells := ListCells(CellsOf(m.blocks), assignment, |lanes|);
    ok := listed;
    if ok {
      var blocks := ListBlocksOn(m.blocks, assignment, |lanes|);
      body := ShardBody(m.binding, protocolSha, scheduleSha, stackSha, m.split, m.layer, lanes, costs, assignment,
                        SortAll(cells), SortAll(blocks), |CellsOf(m.blocks)|);
    } else {
      body := ShardBody("", "", "", "", "", "", [], map[], map[], map[], map[], 0);
    }
  }

  /** build_shard_manifest; `ordered` is the order in which the tasks were placed. */
  method BuildShardManifest(m: Manifest, lanes: seq<Lane>, taskCosts: Weights, stackSha: string, protocolSha: string,
      h: Hashes, scheduleSha: string, digest: ShardBody -> string)
    returns (r: BuildResult, ghost assignment: Assignment, ghost ordered: seq<string>)
    ensures r.Built? <==> SeparateLanes(lanes) && TaskSet(m.blocks) <= taskCosts.Keys && CellsHaveTasks(m)
    ensures r.Unbuilt? ==> match r.error
      case MissingCost => SeparateLanes(lanes) && !(TaskSet(m.blocks) <= taskCosts.Keys)
      case StrayCell => SeparateLanes(lanes) && TaskSet(m.blocks) <= taskCosts.Keys && !CellsHaveTasks(m)
      case e => LaneFault(e, lanes)
    ensures r.Built? ==>
      && r.manifest.recorded == digest(r.manifest.body)
      && States(r.manifest.body, m, scheduleSha, lanes, assignment) && Lists(ordered, TaskSet(m.blocks))
      && r.manifest.body.protocolSha == protocolSha && r.manifest.body.stackSha == stackSha
      && r.manifest.body.taskCosts.Keys == TaskSet(m.blocks)
      && (forall t | t in TaskSet(m.blocks) :: r.manifest.body.taskCosts[t] == taskCosts[t])
    ensures r.Built? && (forall t | t in TaskSet(m.blocks) :: taskCosts[t] >= 0.0) ==>
      Balanced(r.manifest.body.taskCosts, assignment, ordered, |lanes|)
  {
    hide SeparateLanes, Balanced, States, CellsHaveTasks, Lists, TaskSet, LaneFault;
    assignment, ordered := map[], [];
    var failed := CheckLanes(lanes);
    if failed != [] { return Unbuilt(failed[0]), assignment, ordered; }
    assert |lanes| >= 1 by { LanesExist(lanes); }
    var tasks := TaskSet(m.blocks);
    if !(tasks <= taskCosts.Keys) { return Unbuilt(MissingCost), assignment, ordered; }
    var costs := map t | t in tasks :: taskCosts[t];
    var placed;
    placed, ordered := PlaceTasks(costs, |lanes|, m.binding, h);
    assignment := placed;
    assert costs.Keys == tasks;
    var ok, body := WriteBody(m, lanes, costs, placed, stackSha, protocolSha, scheduleSha);
    if !ok { return Unbuilt(StrayCell), assignment, ordered; }
    return Built(ShardManifest(body, digest(body))), assignment, ordered;
  }

  lemma {:induction false} LanesExist(lanes: seq<Lane>)
    requires SeparateLanes(lanes)
    ensures |lanes| >= 1
  {
  }

  // --------------------------------------------------------------- verifying

  /** No key is listed twice, on one lane or on two. */
  ghost predicate ListedOnce(byShard: map<int, seq<string>>) {
    forall s, t, i, j | s in byShard && t in byShard && 0 <= i < |byShard[s]| && 0 <= j < |byShard[t]|
      && byShard[s][i] == byShard[t][j] ::
      s == t && i == j
  }

  ghost predicate DeclaredBy(byShard: map<int, seq<string>>, declared: map<string, int>) {
    && (forall s, k | s in byShard && k in byShard[s] :: k in declared && declared[k] == s)
    && (forall k | k in declared :: declared[k] in byShard && k in byShard[declared[k]])
  }

  /** Where the task partition puts every key; a repeated key keeps its last cell's lane. */
  function ExpectedLanes(cells: seq<Cell>, assignment: map<string, int>): map<string, int>
    requires forall c | c in cells :: c.taskId in assignment
  {
    if cells == [] then map[] else
      var (head, last) := (cells[..|cells| - 1], cells[|cells| - 1]);
      assert cells == head + [last];
      ExpectedLanes(head, assignment)[CellKey(last) := assignment[last.taskId]]
  }

  ghost predicate PartitionsCells(byShard: map<int, seq<string>>, cells: seq<Cell>, assignment: map<string, int>) {
    && ListedOnce(byShard)
    && (forall c | c in cells :: c.taskId in assignment)
    && DeclaredBy(byShard, ExpectedLanes(cells, assignment))
  }

  /** What verify_shard_manifest accepts. */
  ghost predicate Verifies(sm: ShardManifest, m: Manifest, scheduleSha: string, digest: ShardBody -> string) {
    && sm.recorded != "" && digest(sm.body) == sm.recorded
    && sm.body.scheduleSha == scheduleSha && sm.body.binding == m.binding
    && sm.body.taskToShard.Keys == TaskSet(m.blocks)
    && PartitionsCells(sm.body.cellsByShard, CellsOf(m.blocks), sm.body.taskToShard)
  }

  datatype VerifyError = UnboundHash | OtherSchedule | OtherBinding | OtherTasks | CellOnTwoLanes | OtherCells

  datatype Verdict = Verified | Rejected(error: VerifyError)

  /** What each rejection says is so. */
  ghost predicate VerifyFault(e: VerifyError, sm: ShardManifest, m: Manifest, scheduleSha: string,
      digest: ShardBody -> string) {
    var (body, cells) := (sm.body, CellsOf(m.blocks));
    match e
    case UnboundHash => sm.recorded == "" || digest(body) != sm.recorded
    case OtherSchedule => body.scheduleSha != scheduleSha
    case OtherBinding => body.binding != m.binding
    case OtherTasks => body.taskToShard.Keys != TaskSet(m.blocks)
    case CellOnTwoLanes => !ListedOnce(body.cellsByShard)
    case OtherCells =>
      || (exists c :: c in cells && c.taskId !in body.taskToShard)
      || ((forall c | c in cells :: c.taskId in body.taskToShard)
            && !DeclaredBy(body.cellsByShard, ExpectedLanes(cells, body.taskToShard)))
  }

  method VerifyShardManifest(sm: ShardManifest, m: Manifest, scheduleSha: string, digest: ShardBody -> string)
      returns (v: Verdict)
    ensures v.Verified? <==> Verifies(sm, m, scheduleSha, digest)
    ensures v.Rejected? ==> VerifyFault(v.error, sm, m, scheduleSha, digest)
  {
    hide ListedOnce, DeclaredBy;
    var body := sm.body;
    if sm.recorded == "" || digest(body) != sm.recorded { return Rejected(UnboundHash); }
    if body.scheduleSha != scheduleSha { return Rejected(OtherSchedule); }
    if body.binding != m.binding { return Rejected(OtherBinding); }
    if body.taskToShard.Keys != TaskSet(m.blocks) { return Rejected(OtherTasks); }
    var once, declared := DeclareCells(body.cellsByShard);
    if !once { return Rejected(CellOnTwoLanes); }
    var cells := CellsOf(m.blocks);
    if exists c :: c in cells && c.taskId !in body.taskToShard { return Rejected(OtherCells); }
    DeclaredIsUnique(body.cellsByShard, declared, ExpectedLanes(cells, body.taskToShard));
    if declared != ExpectedLanes(cells, body.taskToShard) { return Rejected(OtherCells); }
    return Verified;
  }

  lemma {:induction false} DeclaredLane(byShard: map<int, seq<string>>, declared: map<string, int>, s: int, k: string)
    requires DeclaredBy(byShard, declared) && s in byShard && k in byShard[s]
    ensures k in declared && declared[k] == s
  {
  }

  lemma {:induction false} DeclaredIsUnique(byShard: map<int, seq<string>>, declared: map<string, int>,
      expected: map<string, int>)
    requires DeclaredBy(byShard, declared)
    ensures declared == expected <==> DeclaredBy(byShard, expected)
  {
    if DeclaredBy(byShard, expected) {
      forall k ensures (k in declared <==> k in expected) && (k in declared ==> declared[k] == expected[k]) {
        if k in declared { DeclaredLane(byShard, expected, declared[k], k); }
        if k in expected { DeclaredLane(byShard, declared, expected[k], k); }
      }
    }
  }

  /** The part of the listing already read: all of `done` and the first i keys of lane s. */
  function ReadPart(byShard: map<int, seq<string>>, done: set<int>, s: int, i: nat): map<int, seq<string>>
    requires done <= byShard.Keys && s in byShard && i <= |byShard[s]|
  {
    (map t | t in done :: byShard[t])[s := byShard[s][..i]]
  }

  method DeclareCells(byShard: map<int, seq<string>>) returns (once: bool, declared: map<string, int>)
    ensures once <==> ListedOnce(byShard)
    ensures once ==> DeclaredBy(byShard, declared)
  {
    declared := map[];
    var rest: set<int>, done: set<int> := byShard.Keys, {};
    while exists s :: s in rest
      invariant done <= byShard.Keys && rest == byShard.Keys - done
      invariant ListedOnce(map t | t in done :: byShard[t]) && DeclaredBy(map t | t in done :: byShard[t], declared)
      decreases |rest|
    {
      var s :| s in rest;
      var keys := byShard[s];
      EmptyPart(byShard, done, s, declared);
      for i := 0 to |keys|
        invariant ListedOnce(ReadPart(byShard, done, s, i)) && DeclaredBy(ReadPart(byShard, done, s, i), declared)
      {
        NextKey(byShard, done, s, i, declared);
        if keys[i] in declared {
          return false, declared;
        }
        declared := declared[keys[i] := s];
      }
      assert keys[..|keys|] == keys;
      assert ReadPart(byShard, done, s, |keys|) == map t | t in done + {s} :: byShard[t];
      rest, done := rest - {s}, done + {s};
    }
    assert (map t | t in done :: byShard[t]) == byShard;
    return true, declared;
  }

  lemma {:induction false} EmptyPart(byShard: map<int, seq<string>>, done: set<int>, s: int, declared: map<string, int>)
    requires done <= byShard.Keys && s in byShard && s !in done
    requires ListedOnce(map t | t in done :: byShard[t]) && DeclaredBy(map t | t in done :: byShard[t], declared)
    ensures ListedOnce(ReadPart(byShard, done, s, 0)) && DeclaredBy(ReadPart(byShard, done, s, 0), declared)
  {
    var (before, part) := ((map t | t in done :: byShard[t]), ReadPart(byShard, done, s, 0));
    assert forall t | t in before :: t in part && part[t] == before[t];
    assert part[s] == [];
  }

  lemma {:induction false} NextKey(byShard: map<int, seq<string>>, done: set<int>, s: int, i: nat,
      declared: map<string, int>)
    requires done <= byShard.Keys && s in byShard && s !in done && i < |byShard[s]|
    requires ListedOnce(ReadPart(byShard, done, s, i)) && DeclaredBy(ReadPart(byShard, done, s, i), declared)
    ensures var key := byShard[s][i];
      if key in declared then !ListedOnce(byShard)
      else
        && ListedOnce(ReadPart(byShard, done, s, i + 1))
        && DeclaredBy(ReadPart(byShard, done, s, i + 1), declared[key := s])
  {
    var (key, part, next) := (byShard[s][i], ReadPart(byShard, done, s, i), ReadPart(byShard, done, s, i + 1));
    if key in declared {
      var t := declared[key];
      var j :| 0 <= j < |part[t]| && part[t][j] == key;
      assert byShard[t][j] == byShard[s][i] && (t != s || j != i);
    } else {
      assert next[s] == part[s] + [key];
      assert forall t | t in next && t != s :: t in part && next[t] == part[t];
      forall t, k | t in next && k in next[t] ensures k in declared[key := s] && declared[key := s][k] == t {
        assert k == key || k in part[t];
      }
      forall t, u, a, b | t in next && u in next && 0 <= a < |next[t]| && 0 <= b < |next[u]| && next[t][a] == next[u][b]
        ensures t == u && a == b
      {
        NextListedOnce(part, next, s, key, declared, t, u, a, b);
      }
    }
  }

  lemma {:induction false} NextListedOnce(part: map<int, seq<string>>, next: map<int, seq<string>>, s: int,
      key: string, declared: map<string, int>, t: int, u: int, a: nat, b: nat)
    requires s in part && next == part[s := part[s] + [key]] && key !in declared
    requires ListedOnce(part) && DeclaredBy(part, declared)
    requires t in next && u in next && a < |next[t]| && b < |next[u]| && next[t][a] == next[u][b]
    ensures t == u && a == b
  {
    if a < |part[t]| {
      assert next[t][a] == part[t][a] && part[t][a] in part[t];
    }
    if b < |part[u]| {
      assert next[u][b] == part[u][b] && part[u][b] in part[u];
    }
  }

  // --------------------------------------------- a built manifest, verified

  lemma {:induction false} KeysOnHolds(cells: seq<Cell>, assignment: map<string, int>, s: int, key: string)
    ensures key in KeysOn(cells, assignment, s) <==>
      exists c :: c in cells && c.taskId in assignment && assignment[c.taskId] == s && CellKey(c) == key
  {
    hide CellKey;
    if cells != [] {
      var (head, last) := (cells[..|cells| - 1], cells[|cells| - 1]);
      KeysOnHolds(head, assignment, s, key);
      assert cells == head + [last];
    }
  }

  lemma {:induction false} KeysOnDistinct(cells: seq<Cell>, assignment: map<string, int>, s: int)
    requires Distinct(NamesBy(cells, CellKey))
    ensures Distinct(KeysOn(cells, assignment, s))
  {
    hide CellKey;
    if cells != [] {
      var (head, last) := (cells[..|cells| - 1], cells[|cells| - 1]);
      LastIsNew(NamesBy(cells, CellKey));
      assert NamesBy(head, CellKey) == NamesBy(cells, CellKey)[..|head|];
      KeysOnDistinct(head, assignment, s);
      KeysOnHolds(head, assignment, s, CellKey(last));
      forall c | c in head ensures CellKey(c) != CellKey(last) {
        var k :| 0 <= k < |head| && head[k] == c;
        assert NamesBy(head, CellKey)[k] == CellKey(c);
      }
      DistinctAppend(KeysOn(head, assignment, s), [CellKey(last)]);
    }
  }

  lemma {:induction false} KeysOnTwice(cells: seq<Cell>, assignment: map<string, int>, s: int, i: nat, j: nat)
    requires i < j < |cells| && CellKey(cells[i]) == CellKey(cells[j])
    requires cells[i].taskId in assignment && cells[j].taskId in assignment
      && assignment[cells[i].taskId] == s == assignment[cells[j].taskId]
    ensures multiset(KeysOn(cells, assignment, s))[CellKey(cells[j])] >= 2
  {
    hide CellKey;
    var (head, last) := (cells[..|cells| - 1], cells[|cells| - 1]);
    if j < |head| {
      KeysOnTwice(head, assignment, s, i, j);
    } else {
      assert head[i] in head;
      KeysOnHolds(head, assignment, s, CellKey(last));
    }
  }

  /** The lane of a key, when no two cells share one. */
  lemma {:induction false} ExpectedHolds(cells: seq<Cell>, assignment: map<string, int>)
    requires Distinct(NamesBy(cells, CellKey)) && forall c | c in cells :: c.taskId in assignment
    ensures forall c | c in cells ::
      CellKey(c) in ExpectedLanes(cells, assignment)
        && ExpectedLanes(cells, assignment)[CellKey(c)] == assignment[c.taskId]
    ensures forall k | k in ExpectedLanes(cells, assignment) :: exists c :: c in cells && CellKey(c) == k
  {
    hide CellKey;
    if cells != [] {
      var (head, last) := (cells[..|cells| - 1], cells[|cells| - 1]);
      assert cells == head + [last];
      LastIsNew(NamesBy(cells, CellKey));
      assert NamesBy(head, CellKey) == NamesBy(cells, CellKey)[..|head|];
      ExpectedHolds(head, assignment);
      var expected := ExpectedLanes(cells, assignment);
      forall c | c in cells ensures CellKey(c) in expected && expected[CellKey(c)] == assignment[c.taskId] {
        if c in head {
          var k :| 0 <= k < |head| && head[k] == c;
          assert NamesBy(head, CellKey)[k] == CellKey(c);
        }
      }
      forall k | k in expected ensures exists c :: c in cells && CellKey(c) == k {
        if k != CellKey(last) {
          assert k in ExpectedLanes(head, assignment);
          var c :| c in head && CellKey(c) == k;
          assert c in cells;
        } else {
          assert last in cells;
        }
      }
    }
  }

  /** The listing a built body carries. */
  ghost predicate ListsCells(byShard: map<int, seq<string>>, cells: seq<Cell>, assignment: map<string, int>,
      laneCount: nat) {
    && (forall s :: s in byShard <==> 0 <= s < laneCount)
    && (forall s | s in byShard :: byShard[s] == Sort(KeysOn(cells, assignment, s), StringLe))
    && (forall c | c in cells :: c.taskId in assignment && 0 <= assignment[c.taskId] < laneCount)
  }

  lemma {:induction false} ListedKey(byShard: map<int, seq<string>>, cells: seq<Cell>, assignment: map<string, int>,
      laneCount: nat, s: int, key: string)
    requires ListsCells(byShard, cells, assignment, laneCount) && s in byShard
    ensures key in byShard[s] <==> exists c :: c in cells && assignment[c.taskId] == s && CellKey(c) == key
  {
    hide CellKey;
    KeysOnHolds(cells, assignment, s, key);
    assert key in byShard[s] <==> key in multiset(byShard[s]);
  }

  /** Keys that are all different make a listing that partitions the cells. */
  lemma {:induction false} DistinctKeysPartition(byShard: map<int, seq<string>>, cells: seq<Cell>,
      assignment: map<string, int>, laneCount: nat)
    requires ListsCells(byShard, cells, assignment, laneCount) && Distinct(NamesBy(cells, CellKey))
    ensures PartitionsCells(byShard, cells, assignment)
  {
    hide CellKey;
    ExpectedHolds(cells, assignment);
    var expected := ExpectedLanes(cells, assignment);
    forall s, k | s in byShard && k in byShard[s] ensures k in expected && expected[k] == s {
      ListedKey(byShard, cells, assignment, laneCount, s, k);
    }
    forall k | k in expected ensures expected[k] in byShard && k in byShard[expected[k]] {
      var c :| c in cells && CellKey(c) == k;
      ListedKey(byShard, cells, assignment, laneCount, expected[k], k);
    }
    forall s | s in byShard ensures Distinct(byShard[s]) {
      LaneListDistinct(byShard, cells, assignment, laneCount, s);
    }
    DeclaredOnce(byShard, expected);
  }

  lemma {:induction false} DeclaredOnce(byShard: map<int, seq<string>>, declared: map<string, int>)
    requires DeclaredBy(byShard, declared) && forall s | s in byShard :: Distinct(byShard[s])
    ensures ListedOnce(byShard)
  {
    forall s, t, i, j | s in byShard && t in byShard && 0 <= i < |byShard[s]| && 0 <= j < |byShard[t]|
      && byShard[s][i] == byShard[t][j]
      ensures s == t && i == j
    {
      DeclaredLane(byShard, declared, s, byShard[s][i]);
      DeclaredLane(byShard, declared, t, byShard[t][j]);
    }
  }

  lemma {:induction false} LaneListDistinct(byShard: map<int, seq<string>>, cells: seq<Cell>,
      assignment: map<string, int>, laneCount: nat, s: int)
    requires ListsCells(byShard, cells, assignment, laneCount) && Distinct(NamesBy(cells, CellKey)) && s in byShard
    ensures Distinct(byShard[s])
  {
    KeysOnDistinct(cells, assignment, s);
    DistinctByMultiset(KeysOn(cells, assignment, s), byShard[s]);
  }

  /** A listing in which no key appears twice comes from cells whose keys are all different. */
  lemma {:induction false} PartitionNeedsDistinctKeys(byShard: map<int, seq<string>>, cells: seq<Cell>,
      assignment: map<string, int>, laneCount: nat)
    requires ListsCells(byShard, cells, assignment, laneCount) && ListedOnce(byShard)
    ensures Distinct(NamesBy(cells, CellKey))
  {
    hide CellKey;
    forall i, j | 0 <= i < j < |cells| ensures CellKey(cells[i]) != CellKey(cells[j]) {
      if CellKey(cells[i]) == CellKey(cells[j]) {
        SharedKeyListedTwice(byShard, cells, assignment, laneCount, i, j);
      }
    }
  }

  lemma {:induction false} SharedKeyListedTwice(byShard: map<int, seq<string>>, cells: seq<Cell>,
      assignment: map<string, int>, laneCount: nat, i: nat, j: nat)
    requires ListsCells(byShard, cells, assignment, laneCount)
    requires i < j < |cells| && CellKey(cells[i]) == CellKey(cells[j])
    ensures !ListedOnce(byShard)
  {
    hide CellKey;
    var (key, s, t) := (CellKey(cells[i]), assignment[cells[i].taskId], assignment[cells[j].taskId]);
    assert cells[i] in cells && cells[j] in cells;
    ListedKey(byShard, cells, assignment, laneCount, s, key);
    ListedKey(byShard, cells, assignment, laneCount, t, key);
    if s == t {
      KeysOnTwice(cells, assignment, s, i, j);
      if Distinct(byShard[s]) {
        CountsAtMostOne(byShard[s]);
        assert false;
      }
    } else {
      var a :| 0 <= a < |byShard[s]| && byShard[s][a] == key;
      var b :| 0 <= b < |byShard[t]| && byShard[t][b] == key;
    }
  }

  /** A built manifest verifies against its own campaign exactly when no two scheduled cells
      share a key. */
  lemma {:induction false} BuiltVerifiesIff(sm: ShardManifest, m: Manifest, scheduleSha: string, lanes: seq<Lane>,
      digest: ShardBody -> string)
    requires sm.recorded == digest(sm.body) != "" && CellsHaveTasks(m)
    requires States(sm.body, m, scheduleSha, lanes, sm.body.taskToShard)
    ensures Verifies(sm, m, scheduleSha, digest) <==> Distinct(NamesBy(CellsOf(m.blocks), CellKey))
  {
    var (byShard, cells, assignment) := (sm.body.cellsByShard, CellsOf(m.blocks), sm.body.taskToShard);
    assert ListsCells(byShard, cells, assignment, |lanes|);
    hide ListsCells, Distinct, ListedOnce, DeclaredBy;
    if Distinct(NamesBy(cells, CellKey)) {
      DistinctKeysPartition(byShard, cells, assignment, |lanes|);
    }
    if ListedOnce(byShard) {
      PartitionNeedsDistinctKeys(byShard, cells, assignment, |lanes|);
    }
  }

  /** Two blocks of one cell each, whose keys are the same although the cells are not. */
  const COLLIDING: seq<Block> :=
    [Block("B:a", "T0", "0", [Cell("B:a", "T0", ArmSpec("P0", "P0", "P0"), 0, "0", 0)]),
     Block("B", "T1", "0", [Cell("B", "T1", ArmSpec("a:P0", "P0", "P0"), 0, "0", 0)])]

  /** Such a campaign can be built over any separate lanes, and what is built never verifies. */
  lemma {:induction false} CollidingKeysNeverVerify(sm: ShardManifest, m: Manifest, scheduleSha: string,
      lanes: seq<Lane>, digest: ShardBody -> string)
    requires m.blocks == COLLIDING && sm.recorded == digest(sm.body) != ""
    requires States(sm.body, m, scheduleSha, lanes, sm.body.taskToShard)
    ensures WellFormed(m.blocks) && Distinct(NamesBy(CellsOf(m.blocks), IdOf)) && CellsHaveTasks(m)
    ensures !Verifies(sm, m, scheduleSha, digest)
  {
    CollidingCells();
    var cells := CellsOf(m.blocks);
    SameKey(cells[0], cells[1]);
    assert NamesBy(cells, CellKey)[0] == NamesBy(cells, CellKey)[1];
    hide Verifies, States, WellFormed, CellsHaveTasks, CellKey;
    assert CellsHaveTasks(m) by { TasksOfColliding(m); }
    BuiltVerifiesIff(sm, m, scheduleSha, lanes, digest);
  }

  lemma {:induction false} TasksOfColliding(m: Manifest)
    requires m.blocks == COLLIDING
    ensures CellsHaveTasks(m)
  {
    CollidingCells();
    assert m.blocks[0] in m.blocks && m.blocks[1] in m.blocks;
    assert "T0" in TaskSet(m.blocks) && "T1" in TaskSet(m.blocks);
  }

  lemma {:induction false} CollidingCells()
    ensures WellFormed(COLLIDING) && CellsOf(COLLIDING) == [COLLIDING[0].cells[0], COLLIDING[1].cells[0]]
      && Distinct(NamesBy(CellsOf(COLLIDING), IdOf))
  {
    var (a, b) := (COLLIDING[0], COLLIDING[1]);
    assert COLLIDING[..1] == [a] && [a][..0] == [] && CellsOf([a]) == a.cells;
    assert |a.blockId| == 3 && |b.blockId| == 1;
    var cells := CellsOf(COLLIDING);
    assert cells == [a.cells[0], b.cells[0]];
    assert IdOf(cells[0]).0 == a.blockId && IdOf(cells[1]).0 == b.blockId;
  }

  lemma {:induction false} SameKey(c: Cell, e: Cell)
    requires c.blockId == "B:a" && c.arm.armId == "P0" && e.blockId == "B" && e.arm.armId == "a:P0"
      && c.replicateId == e.replicateId
    ensures CellKey(c) == CellKey(e)
  {
    assert "B:a" + ":" + "P0" == "B" + ":" + "a:P0" == "B:a:P0";
  }
}
