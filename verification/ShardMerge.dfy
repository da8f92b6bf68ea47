/** Reconstituting one campaign from its lanes (src/shapeflow/campaign/sharding.py:247-372). */
module ShardMerge {
  import opened Options
  import opened Sorting
  import opened Blocks
  import opened BlockBalance
  import opened Freeze
  import opened Sharding

  /** A frozen block as a lane ran it. */
  datatype Run = Run(shardId: int, block: FrozenBlock)

  datatype MergeError =
    | BadManifest(error: VerifyError) | WrongLanes | OtherFrozenSchedule | OtherSplit | RootUnbound | UnscheduledBlock
    | BlockTwice | WrongLane | CellTwice | BlocksMissing | OtherCellSet | SharedEpoch

  datatype MergedBody = MergedBody(shardSha: string, binding: string, protocolSha: string, scheduleSha: string,
      split: string, laneCount: nat, laneRoots: map<int, string>, epochsByLane: map<int, seq<string>>,
      blocks: seq<Run>, totalCells: nat)

  datatype MergeResult = Merged(body: MergedBody) | Refused(error: MergeError)

  // ------------------------------------------------------------------ the runs

  /** The scheduled blocks by id; a repeated id keeps its last block. */
  function BlocksById(blocks: seq<Block>): (m: map<string, Block>)
    ensures forall id :: id in m <==> id in BlockIds(blocks)
    ensures forall id | id in m :: m[id] in blocks && m[id].blockId == id
  {
    if blocks == [] then map[] else
      var (head, last) := (blocks[..|blocks| - 1], blocks[|blocks| - 1]);
      assert blocks == head + [last] && BlockIds(blocks) == BlockIds(head) + [last.blockId];
      BlocksById(head)[last.blockId := last]
  }

  function CellIds(cells: seq<FrozenCell>): (ids: seq<CellId>)
    ensures |ids| == |cells|
  {
    seq(|cells|, k requires 0 <= k < |cells| => IdOf(cells[k].cell))
  }

  function RunIds(runs: seq<Run>): (ids: seq<string>)
    ensures |ids| == |runs|
  {
    seq(|runs|, k requires 0 <= k < |runs| => runs[k].block.blockId)
  }

  function RunCells(runs: seq<Run>): seq<CellId> {
    if runs == [] then [] else RunCells(runs[..|runs| - 1]) + CellIds(runs[|runs| - 1].block.cells)
  }

  function LaneRuns(s: int, blocks: seq<FrozenBlock>): (runs: seq<Run>)
    ensures |runs| == |blocks|
  {
    seq(|blocks|, k requires 0 <= k < |blocks| => Run(s, blocks[k]))
  }

  /** Everything the lanes ran, lane by lane. */
  function Runs(order: seq<int>, roots: map<int, Root>): seq<Run>
    requires forall s | s in order :: s in roots
  {
    if order == [] then [] else
      var (head, last) := (order[..|order| - 1], order[|order| - 1]);
      assert order == head + [last];
      Runs(head, roots) + LaneRuns(last, roots[last].body.blocks)
  }

  function LaneEpochs(root: Root): set<string> {
    set b, c | b in root.body.blocks && c in b.cells :: c.epoch
  }

  // ------------------------------------------------------------- what is accepted

  /** A scheduled block, on the lane that owns its task. */
  ghost predicate RunFits(run: Run, byId: map<string, Block>, assignment: map<string, int>) {
    && run.block.blockId in byId
    && byId[run.block.blockId].taskId in assignment && assignment[byId[run.block.blockId].taskId] == run.shardId
  }

  ghost predicate RunsFit(runs: seq<Run>, byId: map<string, Block>, assignment: map<string, int>) {
    && (forall run | run in runs :: RunFits(run, byId, assignment))
    && Distinct(RunIds(runs)) && Distinct(RunCells(runs))
  }

  ghost predicate RootBinds(root: Root, m: Manifest, d: Digests) {
    && root.body.scheduleSha == d.schedule(m) && root.body.split == m.split
    && root.recorded != "" && d.root(root.body) == root.recorded
  }

  function LaneIds(lanes: seq<Lane>): set<int> { set l | l in lanes :: l.shardId }

  ghost predicate SeparateEngines(roots: map<int, Root>) {
    forall s, t | s in roots && t in roots && s != t :: LaneEpochs(roots[s]) !! LaneEpochs(roots[t])
  }

  /** The runs are the schedule: the same blocks, and the same cells. */
  ghost predicate RunsCover(runs: seq<Run>, blocks: seq<Block>) {
    && (forall id :: id in RunIds(runs) <==> id in BlockIds(blocks))
    && (forall i :: i in RunCells(runs) <==> exists c :: c in CellsOf(blocks) && IdOf(c) == i)
  }

  ghost predicate SameCells(runs: seq<Run>, blocks: seq<Block>) {
    forall i :: i in RunCells(runs) <==> exists c :: c in CellsOf(blocks) && IdOf(c) == i
  }

  ghost predicate Mergeable(sm: ShardManifest, m: Manifest, roots: map<int, Root>, order: seq<int>, d: Digests,
      digest: ShardBody -> string)
    requires Lists(order, roots.Keys)
  {
    && Verifies(sm, m, d.schedule(m), digest)
    && roots.Keys == LaneIds(sm.body.lanes)
    && (forall s | s in roots :: RootBinds(roots[s], m, d))
    && RunsFit(Runs(order, roots), BlocksById(m.blocks), sm.body.taskToShard)
    && RunsCover(Runs(order, roots), m.blocks)
    && SeparateEngines(roots)
  }

  /** What is wrong with a run, after the runs before it. */
  ghost predicate RunFault(e: MergeError, run: Run, byId: map<string, Block>, assignment: map<string, int>,
      runs: seq<Run>) {
    match e
    case UnscheduledBlock => run.block.blockId !in byId
    case BlockTwice => !Distinct(RunIds(runs + [run]))
    case WrongLane => run.block.blockId in byId && !RunFits(run, byId, assignment)
    case CellTwice => !Distinct(RunCells(runs + [run]))
    case _ => false
  }

  /** What each refusal says is so. */
  ghost predicate MergeFault(e: MergeError, sm: ShardManifest, m: Manifest, roots: map<int, Root>, order: seq<int>,
      d: Digests, digest: ShardBody -> string)
    requires Lists(order, roots.Keys)
  {
    var (runs, byId, assignment) := (Runs(order, roots), BlocksById(m.blocks), sm.body.taskToShard);
    match e
    case BadManifest(fault) => VerifyFault(fault, sm, m, d.schedule(m), digest)
    case WrongLanes => roots.Keys != LaneIds(sm.body.lanes)
    case OtherFrozenSchedule => exists s :: s in roots && roots[s].body.scheduleSha != d.schedule(m)
    case OtherSplit => exists s :: s in roots && roots[s].body.split != m.split
    case RootUnbound => exists s ::
      s in roots && (roots[s].recorded == "" || d.root(roots[s].body) != roots[s].recorded)
    case UnscheduledBlock => exists run :: run in runs && run.block.blockId !in byId
    case WrongLane => exists run :: run in runs && run.block.blockId in byId && !RunFits(run, byId, assignment)
    case BlockTwice => !Distinct(RunIds(runs))
    case CellTwice => !Distinct(RunCells(runs))
    case BlocksMissing => exists b :: b in m.blocks && b.blockId !in RunIds(runs)
    case OtherCellSet => !SameCells(runs, m.blocks)
    case SharedEpoch => !SeparateEngines(roots)
  }

  // ------------------------------------------------------------------- merging

  /** What has been seen: every block id and every cell id of the runs. */
  ghost predicate Seen(runs: seq<Run>, blocks: set<string>, cells: set<CellId>) {
    && (forall id :: id in blocks <==> id in RunIds(runs))
    && (forall i :: i in cells <==> i in RunCells(runs))
  }

  lemma {:induction false} RunsAppend(runs: seq<Run>, run: Run)
    ensures RunIds(runs + [run]) == RunIds(runs) + [run.block.blockId]
    ensures RunCells(runs + [run]) == RunCells(runs) + CellIds(run.block.cells)
  {
    assert (runs + [run])[..|runs|] == runs;
  }

  lemma {:induction false} PrefixFits(runs: seq<Run>, more: seq<Run>, byId: map<string, Block>,
      assignment: map<string, int>)
    requires RunsFit(runs + more, byId, assignment)
    ensures RunsFit(runs, byId, assignment)
  {
    if more == [] {
      assert runs + more == runs;
    } else {
      var (head, last) := (runs + more[..|more| - 1], more[|more| - 1]);
      assert runs + more == head + [last];
      RunsAppend(head, last);
      forall run | run in head ensures run in runs + more {}
      assert RunIds(head) == RunIds(runs + more)[..|head|]
        && RunCells(head) == RunCells(runs + more)[..|RunCells(head)|];
      PrefixFits(runs, more[..|more| - 1], byId, assignment);
    }
  }

  method MergeCells(cells: seq<FrozenCell>, seen: set<CellId>, ghost before: seq<CellId>)
    returns (once: bool, after: set<CellId>, epochs: set<string>)
    requires Distinct(before) && forall i :: i in seen <==> i in before
    ensures once <==> Distinct(before + CellIds(cells))
    ensures once ==> (forall i :: i in after <==> i in before + CellIds(cells)) && epochs == Epochs(cells)
  {
    after, epochs := seen, {};
    for k := 0 to |cells|
      invariant Distinct(before + CellIds(cells[..k]))
      invariant forall i :: i in after <==> i in before + CellIds(cells[..k])
      invariant epochs == Epochs(cells[..k])
    {
      var key := IdOf(cells[k].cell);
      ghost var (prior, next, all) := (before + CellIds(cells[..k]), before + CellIds(cells[..k + 1]),
          before + CellIds(cells));
      assert cells[..k + 1] == cells[..k] + [cells[k]];
      assert next == prior + [key] && next <= all;
      if key in after {
        ghost var j :| 0 <= j < |prior| && prior[j] == key;
        assert all[j] == all[|prior|];
        return false, after, epochs;
      }
      DistinctAppend(prior, [key]);
      after := after + {key};
      epochs := epochs + {cells[k].epoch};
    }
    assert cells[..|cells|] == cells;
    return true, after, epochs;
  }

  method MergeBlock(run: Run, byId: map<string, Block>, assignment: map<string, int>, seenBlocks: set<string>,
      seenCells: set<CellId>, ghost runs: seq<Run>)
    returns (failed: Option<MergeError>, blocks: set<string>, cells: set<CellId>, epochs: set<string>)
    requires RunsFit(runs, byId, assignment) && Seen(runs, seenBlocks, seenCells)
    ensures failed.None? <==> RunsFit(runs + [run], byId, assignment)
    ensures failed.None? ==> Seen(runs + [run], blocks, cells) && epochs == Epochs(run.block.cells)
    ensures failed.Some? ==> RunFault(failed.value, run, byId, assignment, runs)
  {
    hide RunFits;
    blocks, cells, epochs := seenBlocks, seenCells, {};
    RunsAppend(runs, run);
    assert run in runs + [run];
    var id := run.block.blockId;
    if id !in byId {
      assert !RunFits(run, byId, assignment) by { NotScheduled(run, byId, assignment); }
      return Some(UnscheduledBlock), blocks, cells, epochs;
    }
    if id in seenBlocks {
      ghost var j :| 0 <= j < |runs| && RunIds(runs)[j] == id;
      assert RunIds(runs + [run])[j] == RunIds(runs + [run])[|runs|];
      return Some(BlockTwice), blocks, cells, epochs;
    }
    var task := byId[id].taskId;
    FitsWhen(run, byId, assignment);
    if task !in assignment || assignment[task] != run.shardId {
      return Some(WrongLane), blocks, cells, epochs;
    }
    DistinctAppend(RunIds(runs), [id]);
    blocks := seenBlocks + {id};
    var once;
    once, cells, epochs := MergeCells(run.block.cells, seenCells, RunCells(runs));
    if !once {
      return Some(CellTwice), blocks, cells, epochs;
    }
    return None, blocks, cells, epochs;
  }

  lemma {:induction false} NotScheduled(run: Run, byId: map<string, Block>, assignment: map<string, int>)
    ensures RunFits(run, byId, assignment) ==> run.block.blockId in byId
  {
  }

  lemma {:induction false} FitsWhen(run: Run, byId: map<string, Block>, assignment: map<string, int>)
    requires run.block.blockId in byId
    ensures var task := byId[run.block.blockId].taskId;
      RunFits(run, byId, assignment) <==> task in assignment && assignment[task] == run.shardId
  {
  }

  method MergeLane(s: int, frozen: seq<FrozenBlock>, byId: map<string, Block>, assignment: map<string, int>,
      seenBlocks: set<string>, seenCells: set<CellId>, ghost before: seq<Run>)
    returns (failed: Option<MergeError>, blocks: set<string>, cells: set<CellId>, epochs: set<string>)
    requires RunsFit(before, byId, assignment) && Seen(before, seenBlocks, seenCells)
    ensures failed.None? <==> RunsFit(before + LaneRuns(s, frozen), byId, assignment)
    ensures failed.None? ==> Seen(before + LaneRuns(s, frozen), blocks, cells)
    ensures failed.None? ==> epochs == set b, c | b in frozen && c in b.cells :: c.epoch
    ensures failed.Some? ==> exists k ::
      0 <= k < |frozen|
        && RunFault(failed.value, Run(s, frozen[k]), byId, assignment, before + LaneRuns(s, frozen[..k]))
  {
    hide RunsFit, Seen, RunFault;
    failed, blocks, cells, epochs := None, seenBlocks, seenCells, {};
    assert before + LaneRuns(s, []) == before;
    for k := 0 to |frozen|
      invariant failed.None? && RunsFit(before + LaneRuns(s, frozen[..k]), byId, assignment)
      invariant Seen(before + LaneRuns(s, frozen[..k]), blocks, cells)
      invariant epochs == set b, c | b in frozen[..k] && c in b.cells :: c.epoch
    {
      var run := Run(s, frozen[k]);
      ghost var (runs, all) := (before + LaneRuns(s, frozen[..k]), before + LaneRuns(s, frozen));
      assert frozen[..k + 1] == frozen[..k] + [frozen[k]];
      assert before + LaneRuns(s, frozen[..k + 1]) == runs + [run];
      var more;
      failed, blocks, cells, more := MergeBlock(run, byId, assignment, blocks, cells, runs);
      if failed.Some? {
        assert all == runs + [run] + LaneRuns(s, frozen[k + 1..]);
        if RunsFit(all, byId, assignment) {
          PrefixFits(runs + [run], LaneRuns(s, frozen[k + 1..]), byId, assignment);
        }
        return;
      }
      epochs := epochs + more;
    }
    assert frozen[..|frozen|] == frozen;
  }

  /** sorted(keys) of a set of lane numbers. */
  method ListLanes(keys: set<int>) returns (order: seq<int>)
    ensures Lists(order, keys) && Sorted(order, IntLe)
  {
    var rest, found := keys, [];
    while exists s :: s in rest
      invariant rest <= keys && Distinct(found)
      invariant forall s :: s in found <==> s in keys && s !in rest
      decreases |rest|
    {
      var s :| s in rest;
      found := found + [s];
      rest := rest - {s};
    }
    order := Sort(found, IntLe);
    SortSorts(found, IntLe);
    DistinctByMultiset(found, order);
  }

  predicate RunLe(a: Run, b: Run) { StringLe(a.block.blockId, b.block.blockId) }

  lemma {:induction false} RunsExtend(order: seq<int>, k: nat, roots: map<int, Root>)
    requires k < |order| && forall s | s in order :: s in roots
    ensures forall s | s in order[..k + 1] :: s in roots
    ensures forall s | s in order[..k] :: s in roots
    ensures Runs(order[..k + 1], roots) == Runs(order[..k], roots) + LaneRuns(order[k], roots[order[k]].body.blocks)
  {
    assert order[..k + 1][..k] == order[..k];
  }

  /** A run of lanes that fits leaves only fitting beginnings. */
  lemma {:induction false} EarlierLanesFit(order: seq<int>, k: nat, roots: map<int, Root>, byId: map<string, Block>,
      assignment: map<string, int>)
    requires k <= |order| && (forall s | s in order :: s in roots) && RunsFit(Runs(order, roots), byId, assignment)
    ensures RunsFit(Runs(order[..k], roots), byId, assignment)
    decreases |order| - k
  {
    hide RunsFit;
    if k == |order| {
      assert order[..k] == order;
    } else {
      EarlierLanesFit(order, k + 1, roots, byId, assignment);
      RunsExtend(order, k, roots);
      PrefixFits(Runs(order[..k], roots), LaneRuns(order[k], roots[order[k]].body.blocks), byId, assignment);
    }
  }

  /** What is wrong with a lane's root. */
  ghost predicate RootFault(e: MergeError, root: Root, m: Manifest, d: Digests) {
    match e
    case OtherFrozenSchedule => root.body.scheduleSha != d.schedule(m)
    case OtherSplit => root.body.split != m.split
    case RootUnbound => root.recorded == "" || d.root(root.body) != root.recorded
    case _ => false
  }

  ghost predicate LanesFault(e: MergeError, m: Manifest, roots: map<int, Root>, order: seq<int>,
      assignment: map<string, int>, d: Digests)
    requires Lists(order, roots.Keys)
  {
    var (runs, byId) := (Runs(order, roots), BlocksById(m.blocks));
    || (exists s :: s in roots && RootFault(e, roots[s], m, d))
    || (e == UnscheduledBlock && exists run :: run in runs && run.block.blockId !in byId)
    || (e == WrongLane && exists run :: run in runs && run.block.blockId in byId && !RunFits(run, byId, assignment))
    || (e == BlockTwice && !Distinct(RunIds(runs)))
    || (e == CellTwice && !Distinct(RunCells(runs)))
  }

  lemma {:induction false} RootIsFault(e: MergeError, m: Manifest, roots: map<int, Root>, order: seq<int>,
      assignment: map<string, int>, d: Digests, s: int)
    requires Lists(order, roots.Keys) && s in order && RootFault(e, roots[s], m, d)
    ensures LanesFault(e, m, roots, order, assignment, d)
  {
    hide RootFault, Runs;
  }

  lemma {:induction false} RunsConcat(a: seq<Run>, b: seq<Run>)
    ensures RunIds(a + b) == RunIds(a) + RunIds(b) && RunCells(a + b) == RunCells(a) + RunCells(b)
  {
    if b == [] {
      assert a + b == a;
    } else {
      var (head, last) := (b[..|b| - 1], b[|b| - 1]);
      assert a + b == a + head + [last] && b == head + [last];
      RunsConcat(a, head);
      RunsAppend(a + head, last);
      RunsAppend(head, last);
    }
  }

  lemma {:induction false} RunsPrefix(order: seq<int>, k: nat, roots: map<int, Root>)
    requires k <= |order| && forall s | s in order :: s in roots
    ensures (forall s | s in order[..k] :: s in roots) && Runs(order[..k], roots) <= Runs(order, roots)
    decreases |order| - k
  {
    if k == |order| {
      assert order[..k] == order;
    } else {
      RunsPrefix(order, k + 1, roots);
      RunsExtend(order, k, roots);
    }
  }

  /** Run j of lane order[k], with everything before it, is a beginning of all runs. */
  lemma {:induction false} RunIsFault(e: MergeError, m: Manifest, roots: map<int, Root>, order: seq<int>,
      assignment: map<string, int>, d: Digests, k: nat, j: nat)
    requires Lists(order, roots.Keys) && k < |order| && j < |roots[order[k]].body.blocks|
    requires forall s | s in order[..k] :: s in roots
    requires var (s, frozen) := (order[k], roots[order[k]].body.blocks);
      RunFault(e, Run(s, frozen[j]), BlocksById(m.blocks), assignment,
               Runs(order[..k], roots) + LaneRuns(s, frozen[..j]))
    ensures LanesFault(e, m, roots, order, assignment, d)
  {
    var (s, frozen) := (order[k], roots[order[k]].body.blocks);
    var run, head := Run(s, frozen[j]), Runs(order[..k], roots) + LaneRuns(s, frozen[..j]);
    assert order[k] in order && forall s | s in order :: s in roots;
    hide *;
    RunComesHere(order, roots, k, j);
    FaultStays(e, run, BlocksById(m.blocks), assignment, head, Runs(order, roots)[|head| + 1..]);
    FaultOfRuns(e, m, roots, order, assignment, d, run);
  }

  lemma {:induction false} RunComesHere(order: seq<int>, roots: map<int, Root>, k: nat, j: nat)
    requires (forall s | s in order :: s in roots) && k < |order| && order[k] in roots
    requires j < |roots[order[k]].body.blocks|
    ensures forall s | s in order[..k] :: s in roots
    ensures var (s, frozen, all) := (order[k], roots[order[k]].body.blocks, Runs(order, roots));
      var head := Runs(order[..k], roots) + LaneRuns(s, frozen[..j]);
      |head| < |all| && all == head + [Run(s, frozen[j])] + all[|head| + 1..]
  {
    var (s, frozen, all) := (order[k], roots[order[k]].body.blocks, Runs(order, roots));
    var head := Runs(order[..k], roots) + LaneRuns(s, frozen[..j]);
    RunsPrefix(order, k + 1, roots);
    RunsExtend(order, k, roots);
    assert LaneRuns(s, frozen) == LaneRuns(s, frozen[..j]) + [Run(s, frozen[j])] + LaneRuns(s, frozen[j + 1..]);
    hide Runs, LaneRuns;
    assert head + [Run(s, frozen[j])] <= all;
  }

  /** What is wrong with a run is wrong with any runs that go on from it. */
  ghost predicate FaultAmong(e: MergeError, run: Run, byId: map<string, Block>, assignment: map<string, int>,
      all: seq<Run>) {
    match e
    case UnscheduledBlock => run in all && run.block.blockId !in byId
    case WrongLane => run in all && run.block.blockId in byId && !RunFits(run, byId, assignment)
    case BlockTwice => !Distinct(RunIds(all))
    case CellTwice => !Distinct(RunCells(all))
    case _ => false
  }

  lemma {:induction false} FaultStays(e: MergeError, run: Run, byId: map<string, Block>, assignment: map<string, int>,
      head: seq<Run>, rest: seq<Run>)
    requires RunFault(e, run, byId, assignment, head)
    ensures FaultAmong(e, run, byId, assignment, head + [run] + rest)
  {
    hide RunFits, Distinct, RunIds, RunCells;
    RunsConcat(head + [run], rest);
    DistinctPrefix(RunIds(head + [run]), RunIds(rest));
    DistinctPrefix(RunCells(head + [run]), RunCells(rest));
  }

  lemma {:induction false} FaultOfRuns(e: MergeError, m: Manifest, roots: map<int, Root>, order: seq<int>,
      assignment: map<string, int>, d: Digests, run: Run)
    requires Lists(order, roots.Keys)
      && FaultAmong(e, run, BlocksById(m.blocks), assignment, Runs(order, roots))
    ensures LanesFault(e, m, roots, order, assignment, d)
  {
    hide Runs, RunFits, Distinct, RootFault;
  }

  lemma {:induction false} DistinctPrefix<T>(a: seq<T>, b: seq<T>)
    ensures Distinct(a + b) ==> Distinct(a)
  {
    if Distinct(a + b) {
      forall i, j | 0 <= i < j < |a| ensures a[i] != a[j] { assert (a + b)[i] != (a + b)[j]; }
    }
  }

  method CollectLanes(order: seq<int>, roots: map<int, Root>, m: Manifest, assignment: map<string, int>, d: Digests)
    returns (failed: Option<MergeError>, runs: seq<Run>, blocks: set<string>, cells: set<CellId>,
        epochsByLane: map<int, set<string>>)
    requires Lists(order, roots.Keys)
    ensures failed.None? <==>
      (forall s | s in roots :: RootBinds(roots[s], m, d))
        && RunsFit(Runs(order, roots), BlocksById(m.blocks), assignment)
    ensures failed.None? ==> runs == Runs(order, roots) && Seen(runs, blocks, cells)
    ensures failed.None? ==> epochsByLane == map s | s in roots :: LaneEpochs(roots[s])
    ensures failed.Some? ==> LanesFault(failed.value, m, roots, order, assignment, d)
  {
    hide RunsFit, Seen, LaneEpochs, RootBinds, Distinct, BlocksById, Runs, LaneRuns, LanesFault, RootFault, RunFault;
    var byId := BlocksById(m.blocks);
    failed, runs, blocks, cells, epochsByLane := None, [], {}, {}, map[];
    NothingFits(byId, assignment);
    NothingRan(order[..0], roots);
    for k := 0 to |order|
      invariant failed.None? && forall s | s in order[..k] :: RootBinds(roots[s], m, d)
      invariant runs == Runs(order[..k], roots) && RunsFit(runs, byId, assignment) && Seen(runs, blocks, cells)
      invariant epochsByLane == map s | s in order[..k] :: LaneEpochs(roots[s])
    {
      var s := order[k];
      var root := roots[s];
      assert order[..k + 1] == order[..k] + [s];
      RunsExtend(order, k, roots);
      failed := CheckRoot(root, m, d);
      if failed.Some? {
        RootIsFault(failed.value, m, roots, order, assignment, d, s);
        return;
      }
      var epochs;
      failed, blocks, cells, epochs := MergeLane(s, root.body.blocks, byId, assignment, blocks, cells, runs);
      if failed.Some? {
        if RunsFit(Runs(order, roots), byId, assignment) {
          EarlierLanesFit(order, k + 1, roots, byId, assignment);
        }
        ghost var j :| 0 <= j < |root.body.blocks| && RunFault(failed.value, Run(s, root.body.blocks[j]), byId,
            assignment, runs + LaneRuns(s, root.body.blocks[..j]));
        RunIsFault(failed.value, m, roots, order, assignment, d, k, j);
        return;
      }
      runs := runs + LaneRuns(s, root.body.blocks);
      assert epochs == LaneEpochs(root) by { EpochsOfLane(root); }
      epochsByLane := epochsByLane[s := epochs];
    }
    assert order[..|order|] == order;
    forall s ensures s in epochsByLane <==> s in roots {}
  }

  lemma {:induction false} EpochsOfLane(root: Root)
    ensures LaneEpochs(root) == set b, c | b in root.body.blocks && c in b.cells :: c.epoch
  {
  }

  lemma {:induction false} NothingRan(order: seq<int>, roots: map<int, Root>)
    requires order == []
    ensures Runs(order, roots) == []
  {}

  lemma {:induction false} NothingFits(byId: map<string, Block>, assignment: map<string, int>)
    ensures RunsFit([], byId, assignment) && Seen([], {}, {})
  {
  }

  method CheckRoot(root: Root, m: Manifest, d: Digests) returns (failed: Option<MergeError>)
    ensures failed.None? <==> RootBinds(root, m, d)
    ensures failed.Some? ==> RootFault(failed.value, root, m, d)
  {
    if root.body.scheduleSha != d.schedule(m) { return Some(OtherFrozenSchedule); }
    if root.body.split != m.split { return Some(OtherSplit); }
    if root.recorded == "" || d.root(root.body) != root.recorded { return Some(RootUnbound); }
    return None;
  }

  method CheckEngines(order: seq<int>, roots: map<int, Root>, epochsByLane: map<int, set<string>>)
      returns (separate: bool)
    requires Lists(order, roots.Keys) && epochsByLane == map s | s in roots :: LaneEpochs(roots[s])
    ensures separate <==> SeparateEngines(roots)
  {
    hide LaneEpochs;
    for i := 0 to |order|
      invariant forall s, t | s in order[..i] && t in order && s < t :: LaneEpochs(roots[s]) !! LaneEpochs(roots[t])
    {
      var left := order[i];
      assert order[..i + 1] == order[..i] + [left];
      for j := 0 to |order|
        invariant forall t | t in order[..j] && left < t :: LaneEpochs(roots[left]) !! LaneEpochs(roots[t])
      {
        var right := order[j];
        assert order[..j + 1] == order[..j] + [right];
        if left < right && !(epochsByLane[left] !! epochsByLane[right]) {
          return false;
        }
      }
      assert order[..|order|] == order;
    }
    assert order[..|order|] == order;
    forall s, t | s in roots && t in roots && s != t ensures LaneEpochs(roots[s]) !! LaneEpochs(roots[t]) {
      assert s in order && t in order && (s < t || t < s);
    }
    return true;
  }

  /** merge_shard_freeze_roots; `order` lists the lanes in ascending order. */
  method MergeFreezeRoots(sm: ShardManifest, m: Manifest, roots: map<int, Root>, d: Digests,
      digest: ShardBody -> string)
    returns (r: MergeResult, ghost order: seq<int>)
    ensures Lists(order, roots.Keys) && Sorted(order, IntLe)
    ensures r.Merged? <==> Mergeable(sm, m, roots, order, d, digest)
    ensures r.Refused? ==> MergeFault(r.error, sm, m, roots, order, d, digest)
    ensures r.Merged? ==>
      && Verifies(sm, m, d.schedule(m), digest) && roots.Keys == LaneIds(sm.body.lanes) && SeparateEngines(roots)
      && r.body.laneCount == |roots| && r.body.laneRoots == (map s | s in roots :: roots[s].recorded)
      && r.body.epochsByLane.Keys == roots.Keys
      && (forall s | s in roots ::
            Lists(r.body.epochsByLane[s], LaneEpochs(roots[s])) && Sorted(r.body.epochsByLane[s], StringLe))
      && r.body.shardSha == sm.recorded && r.body.binding == m.binding && r.body.protocolSha == m.protocolSha
      && r.body.scheduleSha == d.schedule(m) && r.body.split == m.split
    ensures r.Merged? ==>
      && r.body.blocks == Sort(Runs(order, roots), RunLe) && r.body.totalCells == |RunCells(Runs(order, roots))|
      && (forall i, j | 0 <= i < j < |r.body.blocks| ::
            StringLe(r.body.blocks[i].block.blockId, r.body.blocks[j].block.blockId))
  {
    hide Verifies, RunsFit, Seen, LaneEpochs, RootBinds, SeparateEngines, Lists, StringLe,
        SameCells, LaneIds, LanesFault, RunsCover, VerifyFault;
    var lanes := ListLanes(roots.Keys);
    order := lanes;
    var verdict := VerifyShardManifest(sm, m, d.schedule(m), digest);
    if verdict.Rejected? { return Refused(BadManifest(verdict.error)), order; }
    if roots.Keys != LaneIds(sm.body.lanes) { return Refused(WrongLanes), order; }
    var failed, runs, blocks, cells, epochs := CollectLanes(lanes, roots, m, sm.body.taskToShard, d);
    if failed.Some? {
      LanesRefused(failed.value, sm, m, roots, order, d, digest);
      return Refused(failed.value), order;
    }
    CoverBySets(runs, m.blocks, blocks, cells);
    MissingBlock(runs, m.blocks, sm.body.taskToShard, blocks, cells);
    if blocks != BlocksById(m.blocks).Keys { return Refused(BlocksMissing), order; }
    if cells != set c | c in CellsOf(m.blocks) :: IdOf(c) { return Refused(OtherCellSet), order; }
    var separate := CheckEngines(lanes, roots, epochs);
    if !separate { return Refused(SharedEpoch), order; }
    var listed := ListEpochs(lanes, roots, epochs);
    CountSeen(runs, BlocksById(m.blocks), sm.body.taskToShard, blocks, cells);
    var body := MergedBody(sm.recorded, m.binding, m.protocolSha, d.schedule(m), m.split, |roots|,
                           map s | s in roots :: roots[s].recorded, listed, Sort(runs, RunLe), |cells|);
    RunsRise(runs);
    return Merged(body), order;
  }

  /** Runs that fit name scheduled blocks only, so a difference is a block that nobody ran. */
  lemma {:induction false} MissingBlock(runs: seq<Run>, scheduled: seq<Block>, assignment: map<string, int>,
      blocks: set<string>, cells: set<CellId>)
    requires Seen(runs, blocks, cells) && RunsFit(runs, BlocksById(scheduled), assignment)
    ensures blocks != BlocksById(scheduled).Keys ==> exists b :: b in scheduled && b.blockId !in RunIds(runs)
    ensures cells != (set c | c in CellsOf(scheduled) :: IdOf(c)) ==>
      !SameCells(runs, scheduled)
  {
    hide IdOf;
    var byId := BlocksById(scheduled);
    forall id | id in blocks ensures id in byId {
      var k :| 0 <= k < |runs| && RunIds(runs)[k] == id;
      assert RunFits(runs[k], byId, assignment);
    }
    if blocks != byId.Keys {
      var id :| id in byId && id !in blocks;
      assert byId[id] in scheduled && byId[id].blockId == id;
    }
    if SameCells(runs, scheduled) {
      assert cells == set c | c in CellsOf(scheduled) :: IdOf(c);
    }
  }

  lemma {:induction false} LanesRefused(e: MergeError, sm: ShardManifest, m: Manifest, roots: map<int, Root>,
      order: seq<int>, d: Digests, digest: ShardBody -> string)
    requires Lists(order, roots.Keys) && LanesFault(e, m, roots, order, sm.body.taskToShard, d)
    ensures MergeFault(e, sm, m, roots, order, d, digest)
  {
    hide Runs, RunFits, Distinct;
  }

  lemma {:induction false} RunsRise(runs: seq<Run>)
    ensures var sorted := Sort(runs, RunLe);
      forall i, j | 0 <= i < j < |sorted| :: StringLe(sorted[i].block.blockId, sorted[j].block.blockId)
  {
    StringOrder();
    hide StringLe;
    SortSorts(runs, RunLe);
  }

  lemma {:induction false} CoverBySets(runs: seq<Run>, scheduled: seq<Block>, blocks: set<string>, cells: set<CellId>)
    requires Seen(runs, blocks, cells)
    ensures blocks == BlocksById(scheduled).Keys && cells == (set c | c in CellsOf(scheduled) :: IdOf(c)) <==>
      RunsCover(runs, scheduled)
  {
    var ids := set c | c in CellsOf(scheduled) :: IdOf(c);
    assert forall i :: i in ids <==> exists c :: c in CellsOf(scheduled) && IdOf(c) == i;
    if RunsCover(runs, scheduled) {
      assert blocks == BlocksById(scheduled).Keys && cells == ids;
    }
  }

  lemma {:induction false} CountSeen(runs: seq<Run>, byId: map<string, Block>, assignment: map<string, int>,
      blocks: set<string>, cells: set<CellId>)
    requires RunsFit(runs, byId, assignment) && Seen(runs, blocks, cells)
    ensures |cells| == |RunCells(runs)|
  {
    DistinctLength(RunCells(runs), cells);
  }

  method ListEpochs(order: seq<int>, roots: map<int, Root>, epochs: map<int, set<string>>)
      returns (listed: map<int, seq<string>>)
    requires Lists(order, roots.Keys) && epochs == map s | s in roots :: LaneEpochs(roots[s])
    ensures listed.Keys == roots.Keys
    ensures forall s | s in roots :: Lists(listed[s], LaneEpochs(roots[s])) && Sorted(listed[s], StringLe)
  {
    hide LaneEpochs, StringLe, Sorted;
    listed := map[];
    for k := 0 to |order|
      invariant forall s :: s in listed <==> s in order[..k]
      invariant forall s | s in listed ::
        s in roots && Lists(listed[s], LaneEpochs(roots[s])) && Sorted(listed[s], StringLe)
    {
      var s := order[k];
      assert order[..k + 1] == order[..k] + [s];
      var names := SortedStrings(epochs[s]);
      listed := listed[s := names];
    }
    assert order[..|order|] == order;
    forall s ensures s in listed <==> s in roots {}
  }
}
