/** What an accepted merge means, and that sealed lanes always merge
    (src/shapeflow/campaign/sharding.py:247-372; src/shapeflow/campaign/schedule.py:528-676). */
module MergeTheorems {
  import opened Options
  import opened Sorting
  import opened Schedule
  import opened Blocks
  import opened BlockBalance
  import opened Freeze
  import opened Sharding
  import opened ShardMerge

  // ------------------------------------------------------------ about the runs

  lemma {:induction false} RunCellsHold(runs: seq<Run>, i: CellId)
    ensures i in RunCells(runs) <==> exists run :: run in runs && i in CellIds(run.block.cells)
  {
    if runs != [] {
      var (head, last) := (runs[..|runs| - 1], runs[|runs| - 1]);
      RunCellsHold(head, i);
      assert runs == head + [last];
    }
  }

  lemma {:induction false} RunsHold(order: seq<int>, roots: map<int, Root>, run: Run)
    requires forall s | s in order :: s in roots
    ensures run in Runs(order, roots) <==> run.shardId in order && run.block in roots[run.shardId].body.blocks
  {
    if order != [] {
      var (head, last) := (order[..|order| - 1], order[|order| - 1]);
      assert order == head + [last];
      RunsHold(head, roots, run);
      LaneRunsHold(last, roots[last].body.blocks, run);
    }
  }

  lemma {:induction false} LaneRunsHold(s: int, blocks: seq<FrozenBlock>, run: Run)
    ensures run in LaneRuns(s, blocks) <==> run.shardId == s && run.block in blocks
  {
    if run.shardId == s && run.block in blocks {
      var k :| 0 <= k < |blocks| && blocks[k] == run.block;
      assert LaneRuns(s, blocks)[k] == run;
    }
  }

  /** A cell that two runs hold is held by one run. */
  lemma {:induction false} OneRunHolds(runs: seq<Run>, a: Run, b: Run, i: CellId)
    requires Distinct(RunCells(runs)) && a in runs && b in runs && i in CellIds(a.block.cells)
      && i in CellIds(b.block.cells)
    ensures a == b
  {
    var (head, last) := (runs[..|runs| - 1], runs[|runs| - 1]);
    assert runs == head + [last];
    RunCellsHold(head, i);
    assert Distinct(RunCells(head)) by { assert RunCells(head) == RunCells(runs)[..|RunCells(head)|]; }
    if i in RunCells(head) && i in CellIds(last.block.cells) {
      SplitDistinct(RunCells(head), CellIds(last.block.cells), i);
    }
    if i in RunCells(head) {
      OneRunHolds(head, a, b, i);
    }
  }

  lemma {:induction false} SplitDistinct<T>(s: seq<T>, t: seq<T>, x: T)
    requires x in s && x in t
    ensures !Distinct(s + t)
  {
    var i :| 0 <= i < |s| && s[i] == x;
    var j :| 0 <= j < |t| && t[j] == x;
    assert (s + t)[i] == (s + t)[|s| + j];
  }

  lemma {:induction false} BlockOf(blocks: seq<Block>, a: Block, b: Block)
    requires Distinct(BlockIds(blocks)) && a in blocks && b in blocks && a.blockId == b.blockId
    ensures a == b
  {
    var i :| 0 <= i < |blocks| && blocks[i] == a;
    var j :| 0 <= j < |blocks| && blocks[j] == b;
    assert BlockIds(blocks)[i] == BlockIds(blocks)[j];
  }

  lemma {:induction false} IdsDistinct(blocks: seq<Block>)
    requires WellFormed(blocks)
    ensures Distinct(NamesBy(CellsOf(blocks), IdOf))
  {
    KeysDistinct(blocks, IdOf);
  }

  // ---------------------------------------------------------------- soundness

  /** An accepted merge reconstitutes the schedule: as bags, the blocks and the cells the lanes ran
      are the scheduled ones, so none is missing and none ran twice, and every block ran on the
      lane its task was assigned to. */
  lemma {:induction false} MergeReconstitutes(sm: ShardManifest, m: Manifest, roots: map<int, Root>, order: seq<int>,
      d: Digests, digest: ShardBody -> string)
    requires WellFormed(m.blocks) && Lists(order, roots.Keys) && Mergeable(sm, m, roots, order, d, digest)
    ensures multiset(RunIds(Runs(order, roots))) == multiset(BlockIds(m.blocks))
    ensures multiset(RunCells(Runs(order, roots))) == multiset(NamesBy(CellsOf(m.blocks), IdOf))
    ensures forall b | b in m.blocks :: exists run ::
      && run in Runs(order, roots) && run.block.blockId == b.blockId
      && b.taskId in sm.body.taskToShard && run.shardId == sm.body.taskToShard[b.taskId]
  {
    hide Verifies, SeparateEngines, RootBinds, IdOf;
    var (runs, cells) := (Runs(order, roots), CellsOf(m.blocks));
    SameElements(RunIds(runs), BlockIds(m.blocks));
    IdsDistinct(m.blocks);
    forall i ensures i in RunCells(runs) <==> i in NamesBy(cells, IdOf) {
      NamesHold(cells, i);
    }
    SameElements(RunCells(runs), NamesBy(cells, IdOf));
    forall b | b in m.blocks
      ensures exists run ::
        run in runs && run.block.blockId == b.blockId && b.taskId in sm.body.taskToShard
          && run.shardId == sm.body.taskToShard[b.taskId]
    {
      BlockHasRun(m, runs, sm.body.taskToShard, b);
    }
  }

  lemma {:induction false} NamesHold(cells: seq<Cell>, i: CellId)
    ensures i in NamesBy(cells, IdOf) <==> exists c :: c in cells && IdOf(c) == i
  {
    if exists c :: c in cells && IdOf(c) == i {
      var c :| c in cells && IdOf(c) == i;
      var k :| 0 <= k < |cells| && cells[k] == c;
      assert NamesBy(cells, IdOf)[k] == i;
    }
  }

  lemma {:induction false} BlockHasRun(m: Manifest, runs: seq<Run>, assignment: map<string, int>, b: Block)
    requires Distinct(BlockIds(m.blocks)) && b in m.blocks
    requires RunsFit(runs, BlocksById(m.blocks), assignment) && RunsCover(runs, m.blocks)
    ensures exists run ::
      run in runs && run.block.blockId == b.blockId && b.taskId in assignment && run.shardId == assignment[b.taskId]
  {
    var k :| 0 <= k < |m.blocks| && m.blocks[k] == b;
    assert BlockIds(m.blocks)[k] == b.blockId;
    assert b.blockId in BlockIds(m.blocks) && b.blockId in RunIds(runs);
    var j :| 0 <= j < |runs| && RunIds(runs)[j] == b.blockId;
    var run := runs[j];
    assert RunFits(run, BlocksById(m.blocks), assignment);
    BlockOf(m.blocks, BlocksById(m.blocks)[b.blockId], b);
  }

  // ------------------------------------------------------- cells on their lanes

  /** Every scheduled cell ran on the lane of its task. */
  ghost predicate CellsOnOwnLane(runs: seq<Run>, blocks: seq<Block>, assignment: map<string, int>) {
    forall c | c in CellsOf(blocks) :: exists run ::
      run in runs && IdOf(c) in CellIds(run.block.cells) && c.taskId in assignment
        && run.shardId == assignment[c.taskId]
  }

  /** The ownership check the merge applies to a record's block id, applied to the block id of
      each of its cells. */
  ghost predicate CellOwnersFit(runs: seq<Run>, byId: map<string, Block>, assignment: map<string, int>) {
    forall run, raw | run in runs && raw in run.block.cells ::
      OwnerFits(run.shardId, raw.cell.blockId, byId, assignment)
  }

  ghost predicate OwnerFits(s: int, blockId: string, byId: map<string, Block>, assignment: map<string, int>) {
    blockId in byId && byId[blockId].taskId in assignment && assignment[byId[blockId].taskId] == s
  }

  lemma {:induction false} CellOwner(m: Manifest, c: Cell, assignment: map<string, int>, s: int)
    requires WellFormed(m.blocks) && c in CellsOf(m.blocks)
    ensures OwnerFits(s, c.blockId, BlocksById(m.blocks), assignment) <==>
      c.taskId in assignment && s == assignment[c.taskId]
  {
    CellsInBlocks(m.blocks, c);
    var b :| b in m.blocks && c in b.cells;
    var k :| 0 <= k < |m.blocks| && m.blocks[k] == b;
    assert BlockIds(m.blocks)[k] == b.blockId;
    BlockOf(m.blocks, BlocksById(m.blocks)[b.blockId], b);
  }

  /** The merge checks which lane ran a record, not what cells the record holds: its cells ran on
      their own lanes exactly when the ownership check also passes for each cell's block id. */
  lemma {:induction false} CellsOnOwnLaneIff(sm: ShardManifest, m: Manifest, roots: map<int, Root>, order: seq<int>,
      d: Digests, digest: ShardBody -> string)
    requires WellFormed(m.blocks) && Lists(order, roots.Keys) && Mergeable(sm, m, roots, order, d, digest)
    ensures CellsOnOwnLane(Runs(order, roots), m.blocks, sm.body.taskToShard)
       <==> CellOwnersFit(Runs(order, roots), BlocksById(m.blocks), sm.body.taskToShard)
  {
    hide Verifies, SeparateEngines, RootBinds, WellFormed, OwnerFits;
    var (runs, byId, assignment) := (Runs(order, roots), BlocksById(m.blocks), sm.body.taskToShard);
    if CellOwnersFit(runs, byId, assignment) {
      forall c | c in CellsOf(m.blocks)
        ensures exists run ::
          run in runs && IdOf(c) in CellIds(run.block.cells) && c.taskId in assignment
            && run.shardId == assignment[c.taskId]
      {
        RunCellsHold(runs, IdOf(c));
        var run :| run in runs && IdOf(c) in CellIds(run.block.cells);
        var k :| 0 <= k < |run.block.cells| && CellIds(run.block.cells)[k] == IdOf(c);
        assert run.block.cells[k] in run.block.cells;
        CellOwner(m, c, assignment, run.shardId);
      }
    }
    if CellsOnOwnLane(runs, m.blocks, assignment) {
      forall run, raw | run in runs && raw in run.block.cells
        ensures OwnerFits(run.shardId, raw.cell.blockId, byId, assignment)
      {
        RanOnOwnLane(m, runs, assignment, run, raw);
      }
    }
  }

  lemma {:induction false} RanOnOwnLane(m: Manifest, runs: seq<Run>, assignment: map<string, int>, run: Run,
      raw: FrozenCell)
    requires WellFormed(m.blocks) && RunsFit(runs, BlocksById(m.blocks), assignment) && RunsCover(runs, m.blocks)
    requires CellsOnOwnLane(runs, m.blocks, assignment) && run in runs && raw in run.block.cells
    ensures OwnerFits(run.shardId, raw.cell.blockId, BlocksById(m.blocks), assignment)
  {
    hide WellFormed, OwnerFits;
    var id := IdOf(raw.cell);
    var k :| 0 <= k < |run.block.cells| && run.block.cells[k] == raw;
    assert CellIds(run.block.cells)[k] == id;
    RunCellsHold(runs, id);
    var c :| c in CellsOf(m.blocks) && IdOf(c) == id;
    var own :| own in runs && IdOf(c) in CellIds(own.block.cells) && c.taskId in assignment
      && own.shardId == assignment[c.taskId];
    OneRunHolds(runs, run, own, id);
    CellOwner(m, c, assignment, run.shardId);
  }

  // ------------------------------------------------------------- sealed lanes

  /** A frozen block that is the scheduled block with its outcomes. */
  ghost predicate Replays(b: Block, frozen: FrozenBlock) {
    frozen.blockId == b.blockId && multiset(Cells(frozen.cells)) == multiset(b.cells)
  }

  function FrozenIds(frozen: seq<FrozenBlock>): (ids: seq<string>)
    ensures |ids| == |frozen|
  {
    seq(|frozen|, k requires 0 <= k < |frozen| => frozen[k].blockId)
  }

  /** A root that holds exactly the blocks of lane s, each replayed. */
  ghost predicate HoldsLane(root: Root, s: int, blocks: seq<Block>, assignment: map<string, int>) {
    && Distinct(FrozenIds(root.body.blocks))
    && (forall b | b in blocks && b.taskId in assignment && assignment[b.taskId] == s ::
         b.blockId in FrozenIds(root.body.blocks))
    && (forall f | f in root.body.blocks :: ReplaysOn(f, s, blocks, assignment))
  }

  ghost predicate ReplaysOn(f: FrozenBlock, s: int, blocks: seq<Block>, assignment: map<string, int>) {
    exists b :: b in blocks && b.taskId in assignment && assignment[b.taskId] == s && Replays(b, f)
  }

  lemma {:induction false} FrozenBlocksHold(blocks: seq<Block>, byId: map<string, Record>, d: Digests)
    requires Distinct(BlockIds(blocks))
    ensures var frozen := FrozenBlocks(blocks, byId, d);
      && Distinct(FrozenIds(frozen))
      && (forall id :: id in FrozenIds(frozen) <==> id in BlockIds(blocks) && id in byId)
      && (forall f | f in frozen ::
           exists b :: b in blocks && b.blockId in byId && f == FrozenOf(b, byId[b.blockId], d))
  {
    hide FrozenOf;
    if blocks != [] {
      var (head, last) := (blocks[..|blocks| - 1], blocks[|blocks| - 1]);
      assert blocks == head + [last] && BlockIds(blocks) == BlockIds(head) + [last.blockId];
      LastIsNew(BlockIds(blocks));
      FrozenBlocksHold(head, byId, d);
      var (before, frozen) := (FrozenBlocks(head, byId, d), FrozenBlocks(blocks, byId, d));
      if last.blockId in byId {
        FrozenName(last, byId[last.blockId], d);
        assert FrozenIds(frozen) == FrozenIds(before) + [last.blockId];
        DistinctAppend(FrozenIds(before), [last.blockId]);
      }
      forall f | f in frozen ensures exists b ::
        b in blocks && b.blockId in byId && f == FrozenOf(b, byId[b.blockId], d) {
        if f in before {
          var b :| b in head && b.blockId in byId && f == FrozenOf(b, byId[b.blockId], d);
          assert b in blocks;
        } else {
          assert last in blocks;
        }
      }
    }
  }

  lemma {:induction false} FrozenName(b: Block, record: Record, d: Digests)
    ensures FrozenOf(b, record, d).blockId == b.blockId && FrozenOf(b, record, d).cells == record.body.cells
  {
  }

  lemma {:induction false} RecordKeys(records: seq<Record>)
    ensures forall id :: id in ById(records) <==> id in RecordIds(records)
  {
    if records != [] {
      var head := records[..|records| - 1];
      RecordKeys(head);
      assert RecordIds(records) == RecordIds(head) + [records[|records| - 1].body.blockId];
    }
  }

  lemma {:induction false} BlocksOnHold(blocks: seq<Block>, assignment: map<string, int>, s: int, id: string)
    ensures id in BlocksOn(blocks, assignment, s) <==>
      exists b :: b in blocks && b.blockId == id && b.taskId in assignment && assignment[b.taskId] == s
  {
    if blocks != [] {
      var (head, last) := (blocks[..|blocks| - 1], blocks[|blocks| - 1]);
      BlocksOnHold(head, assignment, s, id);
      assert blocks == head + [last];
    }
  }

  /** A root sealed over a lane's share. */
  ghost predicate SealedShare(root: Root, m: Manifest, s: int, share: seq<string>, d: Digests) {
    exists runId, phaseId, records ::
      && Freezable(m, runId, phaseId, m.split, records, Some(share), d)
      && root == Sealed(m, runId, phaseId, records, Some(s), Some(share), d)
  }

  lemma {:induction false} SealedHoldsLane(root: Root, m: Manifest, s: int, share: seq<string>,
      assignment: map<string, int>, d: Digests)
    requires WellFormed(m.blocks) && SealedShare(root, m, s, share, d)
    requires share == Sort(BlocksOn(m.blocks, assignment, s), StringLe)
    ensures HoldsLane(root, s, m.blocks, assignment)
  {
    hide RecordFits, Uniform, Replays;
    var runId, phaseId, records :|
      && Freezable(m, runId, phaseId, m.split, records, Some(share), d)
      && root == Sealed(m, runId, phaseId, records, Some(s), Some(share), d);
    var (byId, frozen) := (ById(records), root.body.blocks);
    RecordKeys(records);
    FrozenBlocksHold(m.blocks, byId, d);
    forall id ensures id in byId <==>
      exists b :: b in m.blocks && b.blockId == id && b.taskId in assignment && assignment[b.taskId] == s {
      ShareHolds(m, assignment, s, share, records, id);
    }
    hide Freezable, Sealed, ById, FrozenBlocks;
    forall b | b in m.blocks && b.taskId in assignment
      && assignment[b.taskId] == s ensures b.blockId in FrozenIds(frozen) {
      BlockIdIn(m.blocks, b);
    }
    forall f | f in frozen ensures ReplaysOn(f, s, m.blocks, assignment) {
      var b :| b in m.blocks && b.blockId in byId && f == FrozenOf(b, byId[b.blockId], d);
      var other :| other in m.blocks && other.blockId == b.blockId && other.taskId in assignment
        && assignment[other.taskId] == s;
      BlockOf(m.blocks, b, other);
      FrozenReplays(m, b, byId[b.blockId], d);
    }
  }

  lemma {:induction false} BlockIdIn(blocks: seq<Block>, b: Block)
    requires b in blocks
    ensures b.blockId in BlockIds(blocks)
  {
    var k :| 0 <= k < |blocks| && blocks[k] == b;
    assert BlockIds(blocks)[k] == b.blockId;
  }

  lemma {:induction false} ShareHolds(m: Manifest, assignment: map<string, int>, s: int, share: seq<string>,
      records: seq<Record>, id: string)
    requires share == Sort(BlocksOn(m.blocks, assignment, s), StringLe) && Covers(m.blocks, records, Some(share))
    ensures id in ById(records) <==>
      exists b :: b in m.blocks && b.blockId == id && b.taskId in assignment && assignment[b.taskId] == s
  {
    RecordKeys(records);
    BlocksOnHold(m.blocks, assignment, s, id);
    assert id in share <==> id in multiset(share);
    if exists b :: b in m.blocks && b.blockId == id && b.taskId in assignment && assignment[b.taskId] == s {
      var b :| b in m.blocks && b.blockId == id && b.taskId in assignment && assignment[b.taskId] == s;
      BlockIdIn(m.blocks, b);
    }
  }

  lemma {:induction false} FrozenReplays(m: Manifest, b: Block, record: Record, d: Digests)
    requires WellFormed(m.blocks) && b in m.blocks && RecordFits(b, record, d)
    ensures Replays(b, FrozenOf(b, record, d))
  {
    OwnKeysDistinct(b, IdOf);
    FittingRecordIsTheBlock(b, record, d);
  }

  // ------------------------------------------------------------- completeness

  ghost predicate LanesHold(order: seq<int>, roots: map<int, Root>, blocks: seq<Block>, assignment: map<string, int>) {
    forall s | s in order :: s in roots && HoldsLane(roots[s], s, blocks, assignment)
  }

  lemma {:induction false} LaneRunIds(s: int, frozen: seq<FrozenBlock>)
    ensures RunIds(LaneRuns(s, frozen)) == FrozenIds(frozen)
  {
  }

  lemma {:induction false} RunIdHasRun(runs: seq<Run>, id: string) returns (run: Run)
    requires id in RunIds(runs)
    ensures run in runs && run.block.blockId == id
  {
    var k :| 0 <= k < |runs| && RunIds(runs)[k] == id;
    run := runs[k];
  }

  /** Each lane runs its own blocks once, so together the lanes run no block twice. */
  lemma {:induction false} LaneIdsDistinct(order: seq<int>, roots: map<int, Root>, blocks: seq<Block>,
      assignment: map<string, int>)
    requires Distinct(order) && Distinct(BlockIds(blocks)) && LanesHold(order, roots, blocks, assignment)
    ensures Distinct(RunIds(Runs(order, roots)))
  {
    if order != [] {
      LastIsNew(order);
      var (head, s) := (order[..|order| - 1], order[|order| - 1]);
      assert forall t | t in head :: t in order;
      LaneIdsDistinct(head, roots, blocks, assignment);
      var frozen := roots[s].body.blocks;
      assert HoldsLane(roots[s], s, blocks, assignment);
      assert RunIds(Runs(order, roots)) == RunIds(Runs(head, roots)) + RunIds(LaneRuns(s, frozen));
      LaneRunIds(s, frozen);
      forall id | id in FrozenIds(frozen) ensures id !in RunIds(Runs(head, roots)) {
        if id in RunIds(Runs(head, roots)) {
          var run := RunIdHasRun(Runs(head, roots), id);
          var k :| 0 <= k < |frozen| && FrozenIds(frozen)[k] == id;
          RunsHold(head, roots, run);
          OneLanePerBlock(roots, run.shardId, s, run.block, frozen[k], blocks, assignment);
        }
      }
      DistinctAppend(RunIds(Runs(head, roots)), FrozenIds(frozen));
    }
  }

  lemma {:induction false} OneLanePerBlock(roots: map<int, Root>, s: int, t: int, a: FrozenBlock, b: FrozenBlock,
      blocks: seq<Block>, assignment: map<string, int>)
    requires Distinct(BlockIds(blocks)) && s in roots && t in roots && a in roots[s].body.blocks
      && b in roots[t].body.blocks
    requires HoldsLane(roots[s], s, blocks, assignment) && HoldsLane(roots[t], t, blocks, assignment)
      && a.blockId == b.blockId
    ensures s == t
  {
    assert ReplaysOn(a, s, blocks, assignment) && ReplaysOn(b, t, blocks, assignment);
    var x :| x in blocks && x.taskId in assignment && assignment[x.taskId] == s && Replays(x, a);
    var y :| y in blocks && y.taskId in assignment && assignment[y.taskId] == t && Replays(y, b);
    BlockOf(blocks, x, y);
  }

  lemma {:induction false} ReplayCellIds(b: Block, frozen: FrozenBlock)
    requires Uniform(b) && Replays(b, frozen)
    ensures Distinct(CellIds(frozen.cells))
    ensures forall i :: i in CellIds(frozen.cells) <==> exists c :: c in b.cells && IdOf(c) == i
    ensures forall i | i in CellIds(frozen.cells) :: i.0 == frozen.blockId
  {
    var cells := Cells(frozen.cells);
    hide CellsById;
    OwnKeysDistinct(b, IdOf);
    DistinctCells(b.cells);
    DistinctByMultiset(b.cells, cells);
    ReplayedOnce(b, frozen.cells);
    forall i ensures i in CellIds(frozen.cells) <==> exists c :: c in b.cells && IdOf(c) == i {
      ReplayedId(frozen.cells, i);
    }
  }

  lemma {:induction false} ReplayedOnce(b: Block, frozen: seq<FrozenCell>)
    requires Uniform(b) && Distinct(Cells(frozen)) && forall c | c in Cells(frozen) :: c in b.cells
    ensures Distinct(CellIds(frozen))
  {
    hide Uniform;
    var cells := Cells(frozen);
    forall i, j | 0 <= i < j < |frozen| ensures CellIds(frozen)[i] != CellIds(frozen)[j] {
      assert cells[i] in cells && cells[j] in cells && cells[i] != cells[j];
      if IdOf(cells[i]) == IdOf(cells[j]) {
        SameIdSameCell(b, cells[i], cells[j]);
      }
    }
  }

  lemma {:induction false} ReplayedId(frozen: seq<FrozenCell>, i: CellId)
    ensures i in CellIds(frozen) <==> exists c :: c in Cells(frozen) && IdOf(c) == i
  {
    hide IdOf;
    var cells := Cells(frozen);
    if i in CellIds(frozen) {
      var k :| 0 <= k < |cells| && CellIds(frozen)[k] == i;
      assert cells[k] in cells && IdOf(cells[k]) == i;
    }
    if c :| c in cells && IdOf(c) == i {
      var k :| 0 <= k < |cells| && cells[k] == c;
      assert CellIds(frozen)[k] == i;
    }
  }

  lemma {:induction false} SameIdSameCell(b: Block, x: Cell, y: Cell)
    requires Uniform(b) && x in b.cells && y in b.cells && IdOf(x) == IdOf(y)
    ensures x == y
  {
    var i :| 0 <= i < |b.cells| && b.cells[i] == x;
    var j :| 0 <= j < |b.cells| && b.cells[j] == y;
  }

  /** Runs of different blocks share no cell. */
  lemma {:induction false} RunCellsDistinct(runs: seq<Run>)
    requires Distinct(RunIds(runs))
    requires forall run | run in runs ::
      Distinct(CellIds(run.block.cells)) && forall i | i in CellIds(run.block.cells) :: i.0 == run.block.blockId
    ensures Distinct(RunCells(runs))
  {
    if runs != [] {
      var (head, last) := (runs[..|runs| - 1], runs[|runs| - 1]);
      assert runs == head + [last];
      assert RunIds(head) == RunIds(runs)[..|head|];
      RunCellsDistinct(head);
      forall run | run in head ensures run.block.blockId != last.block.blockId {
        var k :| 0 <= k < |head| && head[k] == run;
        assert RunIds(runs)[k] != RunIds(runs)[|head|];
      }
      forall i | i in CellIds(last.block.cells) ensures i !in RunCells(head) {
        RunCellsHold(head, i);
      }
      DistinctAppend(RunCells(head), CellIds(last.block.cells));
    }
  }

  lemma {:induction false} LanesFit(order: seq<int>, roots: map<int, Root>, blocks: seq<Block>,
      assignment: map<string, int>)
    requires WellFormed(blocks) && Lists(order, roots.Keys) && LanesHold(order, roots, blocks, assignment)
    ensures RunsFit(Runs(order, roots), BlocksById(blocks), assignment)
    ensures CellOwnersFit(Runs(order, roots), BlocksById(blocks), assignment)
  {
    hide Uniform, Replays, RunFits, OwnerFits;
    var (runs, byId) := (Runs(order, roots), BlocksById(blocks));
    LaneIdsDistinct(order, roots, blocks, assignment);
    forall run | run in runs
      ensures RunFits(run, byId, assignment) && Distinct(CellIds(run.block.cells))
      ensures forall i | i in CellIds(run.block.cells) :: i.0 == run.block.blockId
    {
      RunIsReplay(order, roots, blocks, assignment, run);
    }
    RunCellsDistinct(runs);
    forall run, raw | run in runs && raw in run.block.cells
      ensures OwnerFits(run.shardId, raw.cell.blockId, byId, assignment)
    {
      RunIsReplay(order, roots, blocks, assignment, run);
      var k :| 0 <= k < |run.block.cells| && run.block.cells[k] == raw;
      assert CellIds(run.block.cells)[k] in CellIds(run.block.cells);
      SameOwner(run, byId, assignment);
    }
  }

  lemma {:induction false} SameOwner(run: Run, byId: map<string, Block>, assignment: map<string, int>)
    ensures RunFits(run, byId, assignment) <==> OwnerFits(run.shardId, run.block.blockId, byId, assignment)
  {
  }

  lemma {:induction false} RunIsReplay(order: seq<int>, roots: map<int, Root>, blocks: seq<Block>,
      assignment: map<string, int>, run: Run)
    requires WellFormed(blocks) && LanesHold(order, roots, blocks, assignment) && run in Runs(order, roots)
    ensures RunFits(run, BlocksById(blocks), assignment) && Distinct(CellIds(run.block.cells))
    ensures forall i | i in CellIds(run.block.cells) :: i.0 == run.block.blockId
  {
    hide Uniform;
    RunsHold(order, roots, run);
    var s := run.shardId;
    assert HoldsLane(roots[s], s, blocks, assignment) && ReplaysOn(run.block, s, blocks, assignment);
    var b :| b in blocks && b.taskId in assignment && assignment[b.taskId] == s && Replays(b, run.block);
    ReplayCellIds(b, run.block);
    BlockIdIn(blocks, b);
    BlockOf(blocks, BlocksById(blocks)[b.blockId], b);
  }

  lemma {:induction false} LanesCover(order: seq<int>, roots: map<int, Root>, blocks: seq<Block>,
      assignment: map<string, int>)
    requires WellFormed(blocks) && Lists(order, roots.Keys) && LanesHold(order, roots, blocks, assignment)
    requires forall b | b in blocks :: b.taskId in assignment && assignment[b.taskId] in roots
    ensures RunsCover(Runs(order, roots), blocks)
  {
    hide WellFormed, LanesHold, IdOf;
    var runs := Runs(order, roots);
    forall id ensures id in RunIds(runs) <==> id in BlockIds(blocks) {
      BlockIdRan(order, roots, blocks, assignment, id);
    }
    forall i ensures i in RunCells(runs) <==> exists c :: c in CellsOf(blocks) && IdOf(c) == i {
      CellRan(order, roots, blocks, assignment, i);
    }
  }

  lemma {:induction false} BlockRan(order: seq<int>, roots: map<int, Root>, blocks: seq<Block>,
      assignment: map<string, int>, b: Block)
    returns (run: Run)
    requires Distinct(BlockIds(blocks)) && Lists(order, roots.Keys) && LanesHold(order, roots, blocks, assignment)
    requires b in blocks && b.taskId in assignment && assignment[b.taskId] in roots
    ensures run in Runs(order, roots) && Replays(b, run.block) && run.block.blockId == b.blockId
  {
    var s := assignment[b.taskId];
    assert HoldsLane(roots[s], s, blocks, assignment);
    var frozen := roots[s].body.blocks;
    var k :| 0 <= k < |frozen| && FrozenIds(frozen)[k] == b.blockId;
    run := Run(s, frozen[k]);
    RunsHold(order, roots, run);
    assert ReplaysOn(frozen[k], s, blocks, assignment);
    var other :| other in blocks && other.taskId in assignment && assignment[other.taskId] == s
      && Replays(other, frozen[k]);
    BlockOf(blocks, other, b);
  }

  lemma {:induction false} BlockIdRan(order: seq<int>, roots: map<int, Root>, blocks: seq<Block>,
      assignment: map<string, int>, id: string)
    requires WellFormed(blocks) && Lists(order, roots.Keys) && LanesHold(order, roots, blocks, assignment)
    requires forall b | b in blocks :: b.taskId in assignment && assignment[b.taskId] in roots
    ensures id in RunIds(Runs(order, roots)) <==> id in BlockIds(blocks)
  {
    hide Uniform, Replays, Runs, LanesHold;
    var runs := Runs(order, roots);
    if id in RunIds(runs) {
      LanesFit(order, roots, blocks, assignment);
      var run := RunIdHasRun(runs, id);
      assert RunFits(run, BlocksById(blocks), assignment);
    }
    if id in BlockIds(blocks) {
      var k :| 0 <= k < |blocks| && BlockIds(blocks)[k] == id;
      var run := BlockRan(order, roots, blocks, assignment, blocks[k]);
      var j :| 0 <= j < |runs| && runs[j] == run;
      assert RunIds(runs)[j] == id;
    }
  }

  lemma {:induction false} CellRan(order: seq<int>, roots: map<int, Root>, blocks: seq<Block>,
      assignment: map<string, int>, i: CellId)
    requires WellFormed(blocks) && Lists(order, roots.Keys) && LanesHold(order, roots, blocks, assignment)
    requires forall b | b in blocks :: b.taskId in assignment && assignment[b.taskId] in roots
    ensures i in RunCells(Runs(order, roots)) <==> exists c :: c in CellsOf(blocks) && IdOf(c) == i
  {
    hide Uniform, IdOf, Replays;
    var runs := Runs(order, roots);
    RunCellsHold(runs, i);
    if i in RunCells(runs) {
      var run :| run in runs && i in CellIds(run.block.cells);
      RunsHold(order, roots, run);
      assert HoldsLane(roots[run.shardId], run.shardId, blocks, assignment)
        && ReplaysOn(run.block, run.shardId, blocks, assignment);
      var b :| b in blocks && b.taskId in assignment && assignment[b.taskId] == run.shardId && Replays(b, run.block);
      ReplayCellIds(b, run.block);
      var c :| c in b.cells && IdOf(c) == i;
      CellsInBlocks(blocks, c);
    }
    if c :| c in CellsOf(blocks) && IdOf(c) == i {
      CellsInBlocks(blocks, c);
      var b :| b in blocks && c in b.cells;
      var run := BlockRan(order, roots, blocks, assignment, b);
      ReplayCellIds(b, run.block);
    }
  }

  /** Lanes that each sealed the share a built manifest gave them, on separate engines, always
      merge into the whole schedule, with every cell on the lane of its task. */
  lemma {:induction false} SealedLanesMerge(sm: ShardManifest, m: Manifest, lanes: seq<Lane>, roots: map<int, Root>,
      order: seq<int>, d: Digests, digest: ShardBody -> string)
    requires WellFormed(m.blocks) && Distinct(NamesBy(CellsOf(m.blocks), CellKey))
    requires SeparateLanes(lanes) && States(sm.body, m, d.schedule(m), lanes, sm.body.taskToShard)
    requires sm.recorded == digest(sm.body) != "" && (forall body :: d.root(body) != "")
    requires Lists(order, roots.Keys) && forall s :: s in roots <==> 0 <= s < |lanes|
    requires forall s | s in roots :: SealedShare(roots[s], m, s, sm.body.blocksByShard[s], d)
    requires SeparateEngines(roots)
    ensures Mergeable(sm, m, roots, order, d, digest)
    ensures CellsOnOwnLane(Runs(order, roots), m.blocks, sm.body.taskToShard)
  {
    hide SealedShare, HoldsLane, SeparateEngines, RunsFit, RunsCover, Verifies, CellOwnersFit, CellsOnOwnLane,
        WellFormed;
    var assignment := sm.body.taskToShard;
    CellsKeepTasks(m);
    BuiltVerifiesIff(sm, m, d.schedule(m), lanes, digest);
    forall s | s in order ensures HoldsLane(roots[s], s, m.blocks, assignment) {
      SealedHoldsLane(roots[s], m, s, sm.body.blocksByShard[s], assignment, d);
    }
    forall b | b in m.blocks ensures b.taskId in assignment && assignment[b.taskId] in roots {
      assert b.taskId in TaskSet(m.blocks);
    }
    LanesFit(order, roots, m.blocks, assignment);
    LanesCover(order, roots, m.blocks, assignment);
    forall s | s in roots ensures RootBinds(roots[s], m, d) {
      SealedBinds(roots[s], m, s, sm.body.blocksByShard[s], d);
    }
    LaneNumbersAre(lanes, roots.Keys);
    CellsOnOwnLaneIff(sm, m, roots, order, d, digest);
  }

  lemma {:induction false} CellsKeepTasks(m: Manifest)
    requires WellFormed(m.blocks)
    ensures CellsHaveTasks(m)
  {
    forall c | c in CellsOf(m.blocks) ensures c.taskId in TaskSet(m.blocks) {
      CellsInBlocks(m.blocks, c);
      var b :| b in m.blocks && c in b.cells;
      assert Uniform(b) && b.taskId in TaskSet(m.blocks);
    }
  }

  lemma {:induction false} SealedBinds(root: Root, m: Manifest, s: int, share: seq<string>, d: Digests)
    requires SealedShare(root, m, s, share, d) && forall body :: d.root(body) != ""
    ensures RootBinds(root, m, d)
  {
    hide Freezable;
  }

  lemma {:induction false} LaneNumbersAre(lanes: seq<Lane>, keys: set<int>)
    requires SeparateLanes(lanes) && forall s :: s in keys <==> 0 <= s < |lanes|
    ensures keys == LaneIds(lanes)
  {
    var ids := Project(lanes, (l: Lane) => l.shardId);
    assert Numbered(ids);
    forall s ensures s in LaneIds(lanes) <==> s in ids {
      if s in ids {
        var k :| 0 <= k < |ids| && ids[k] == s;
        assert lanes[k] in lanes;
      }
      if s in LaneIds(lanes) {
        var l :| l in lanes && l.shardId == s;
        var k :| 0 <= k < |lanes| && lanes[k] == l;
        assert ids[k] == s;
      }
    }
    assert forall s :: s in keys <==> s in ids;
  }

  /** The manifest built for a campaign that build_blocks planned always verifies. */
  lemma {:induction false} PlannedManifestVerifies(sm: ShardManifest, m: Manifest, al: Allocation,
      id: Coordinate -> string, scheduleSha: string, lanes: seq<Lane>, digest: ShardBody -> string)
    requires m.arms != [] && Distinct(ArmIds(m.arms)) && Ordered(|m.arms|, al) && Scheduled(m, al, id)
      && GoodIds(al, id)
    requires States(sm.body, m, scheduleSha, lanes, sm.body.taskToShard) && sm.recorded == digest(sm.body) != ""
    ensures WellFormed(m.blocks) && Verifies(sm, m, scheduleSha, digest)
  {
    hide Ordered, Scheduled, States, Verifies, WellFormed;
    PlanIsWellFormed(m, al, id);
    PlanNamesCellsOnce(m, al, id);
    CellsKeepTasks(m);
    BuiltVerifiesIff(sm, m, scheduleSha, lanes, digest);
  }

  // ------------------------------------------------ a merge the lanes do not own

  function LoneCell(block: string, task: string): Cell { Cell(block, task, ArmSpec("P0", "P0", "P0"), 0, "0", 0) }

  function LoneBlock(block: string, task: string): Block { Block(block, task, "0", [LoneCell(block, task)]) }

  /** The sealed root of a lane whose one record, of its own block, holds somebody else's cell. */
  function StrayRoot(m: Manifest, s: int, block: Block, cell: Cell, epoch: string, d: Digests): Root {
    var record := FrozenBlock(block.blockId, d.block(block), "f", false, "x", [epoch],
      [FrozenCell(cell, "COMMITTED", "o", epoch)]);
    var body := RootBody("r", "p", m.split, m, d.schedule(m), [record], Some(Share(s, [block.blockId])));
    Root(body, d.root(body))
  }

  lemma {:induction false} TwoRuns(roots: map<int, Root>, a: FrozenBlock, b: FrozenBlock)
    requires 0 in roots && 1 in roots && roots[0].body.blocks == [a] && roots[1].body.blocks == [b]
    ensures Runs([0, 1], roots) == [Run(0, a), Run(1, b)]
    ensures RunCells([Run(0, a), Run(1, b)]) == CellIds(a.cells) + CellIds(b.cells)
  {
    assert [0, 1][..1] == [0] && [0][..0] == [];
    assert Runs([0], roots) == [Run(0, a)];
    assert [Run(0, a), Run(1, b)][..1] == [Run(0, a)] && [Run(0, a)][..0] == [];
    assert RunCells([Run(0, a)]) == CellIds(a.cells);
  }

  lemma {:induction false} TwoBlocks(a: Block, b: Block)
    requires a.blockId != b.blockId && Uniform(a) && Uniform(b)
    ensures WellFormed([a, b]) && CellsOf([a, b]) == a.cells + b.cells
      && BlocksById([a, b]) == map[a.blockId := a, b.blockId := b]
  {
    assert [a, b][..1] == [a] && [a][..0] == [];
    assert CellsOf([a]) == a.cells;
  }

  const LANES := [Lane(0, "GPU-0", 8000, 9000, "r0", true), Lane(1, "GPU-1", 8001, 9001, "r1", false)]

  lemma {:induction false} TheLanesAreSeparate()
    ensures SeparateLanes(LANES) && LaneIds(LANES) == {0, 1} && Lists([0, 1], {0, 1})
  {
    assert Project(LANES, (l: Lane) => l.shardId) == [0, 1];
    assert OnlyPaid(LANES, 0);
    assert LANES[0] in LANES && LANES[1] in LANES;
  }

  /** Two blocks of one cell each, and the manifest that splits them over the two lanes. */
  const X := LoneBlock("B0", "T0")
  const Y := LoneBlock("B1", "T1")

  const PAIR := Manifest("h", "h", "s", [X, Y], [ArmSpec("P0", "P0", "P0")], [], "l", "c")

  const SPLIT: map<string, int> := map["T0" := 0, "T1" := 1]

  function PairBody(scheduleSha: string): (body: ShardBody)
    ensures body.lanes == LANES && body.taskToShard == SPLIT
  {
    var cells := map s | s in {0, 1} :: Sort(KeysOn(CellsOf(PAIR.blocks), SPLIT, s), StringLe);
    var blocks := map s | s in {0, 1} :: Sort(BlocksOn(PAIR.blocks, SPLIT, s), StringLe);
    ShardBody("h", "h", scheduleSha, "h", "s", "l", LANES, map[], SPLIT, cells, blocks, |CellsOf(PAIR.blocks)|)
  }

  lemma {:induction false} PairStates(scheduleSha: string)
    ensures States(PairBody(scheduleSha), PAIR, scheduleSha, LANES, SPLIT) && CellsHaveTasks(PAIR)
      && WellFormed(PAIR.blocks) && Distinct(NamesBy(CellsOf(PAIR.blocks), CellKey))
  {
    TwoBlocks(X, Y);
    assert PAIR.blocks[0] in PAIR.blocks && PAIR.blocks[1] in PAIR.blocks;
    assert TaskSet(PAIR.blocks) == {"T0", "T1"};
    assert CellsOf(PAIR.blocks) == [X.cells[0], Y.cells[0]];
    assert CellKey(X.cells[0])[1] != CellKey(Y.cells[0])[1];
  }

  function SwappedRoots(d: Digests): map<int, Root> {
    map[0 := StrayRoot(PAIR, 0, X, Y.cells[0], "e0", d), 1 := StrayRoot(PAIR, 1, Y, X.cells[0], "e1", d)]
  }

  /** Under any digests: the manifest built for two separate lanes verifies, and the roots of two
      lanes that report each other's cell merge under it. The merge counts cells over all lanes,
      and never compares the block id inside a cell with its record's. */
  lemma {:induction false} SwappedCellsMerge(d: Digests, digest: ShardBody -> string)
      returns (sm: ShardManifest, m: Manifest, lanes: seq<Lane>, roots: map<int, Root>, order: seq<int>)
    requires (forall body :: d.root(body) != "") && (forall body :: digest(body) != "")
    ensures SeparateLanes(lanes) && sm.recorded == digest(sm.body)
      && States(sm.body, m, d.schedule(m), lanes, sm.body.taskToShard)
    ensures WellFormed(m.blocks) && Lists(order, roots.Keys) && Mergeable(sm, m, roots, order, d, digest)
    ensures !CellsOnOwnLane(Runs(order, roots), m.blocks, sm.body.taskToShard)
  {
    hide PairBody, SwappedRoots, RootBinds, States, SeparateLanes, Verifies, WellFormed, BlocksById, CellOwnersFit,
        CellsOnOwnLane, Lists, RunsFit, RunsCover, SeparateEngines, Runs;
    m, lanes, roots, order := PAIR, LANES, SwappedRoots(d), [0, 1];
    sm := ShardManifest(PairBody(d.schedule(m)), digest(PairBody(d.schedule(m))));
    TheLanesAreSeparate();
    PairStates(d.schedule(m));
    PairVerifies(d.schedule(m), digest);
    SwappedBind(d);
    SwappedFit(d);
    SwappedCovers(d);
    SwappedOwners(d);
    SwappedSeparate(d);
    CellsOnOwnLaneIff(sm, m, roots, order, d, digest);
  }

  lemma {:induction false} PairVerifies(scheduleSha: string, digest: ShardBody -> string)
    requires forall body :: digest(body) != ""
    ensures var body := PairBody(scheduleSha); Verifies(ShardManifest(body, digest(body)), PAIR, scheduleSha, digest)
  {
    hide PairBody, States, Verifies, CellsHaveTasks;
    var body := PairBody(scheduleSha);
    PairStates(scheduleSha);
    BuiltVerifiesIff(ShardManifest(body, digest(body)), PAIR, scheduleSha, LANES, digest);
  }

  lemma {:induction false} SwappedBind(d: Digests)
    requires forall body :: d.root(body) != ""
    ensures SwappedRoots(d).Keys == {0, 1} && forall s | s in SwappedRoots(d) :: RootBinds(SwappedRoots(d)[s], PAIR, d)
  {}

  function SwappedRecord(d: Digests, s: int): FrozenBlock
    requires s in {0, 1}
  {
    SwappedRoots(d)[s].body.blocks[0]
  }

  /** What the two lanes ran: each its own block, each the other's cell. */
  lemma {:induction false} SwappedRuns(d: Digests)
    ensures var runs := Runs([0, 1], SwappedRoots(d));
      && runs == [Run(0, SwappedRecord(d, 0)), Run(1, SwappedRecord(d, 1))]
      && RunIds(runs) == BlockIds(PAIR.blocks) == ["B0", "B1"]
      && RunCells(runs) == [IdOf(Y.cells[0]), IdOf(X.cells[0])]
  {
    TwoRuns(SwappedRoots(d), SwappedRecord(d, 0), SwappedRecord(d, 1));
    hide Runs;
  }

  lemma {:induction false} SwappedFit(d: Digests)
    ensures RunsFit(Runs([0, 1], SwappedRoots(d)), BlocksById(PAIR.blocks), SPLIT)
  {
    SwappedRuns(d);
    TwoBlocks(X, Y);
    SwappedRecords(d);
    DifferentCells();
    hide Runs, RunIds, RunCells, BlocksById, SwappedRecord, IdOf, RunsFit;
    TwoFit(Runs([0, 1], SwappedRoots(d)), BlocksById(PAIR.blocks), SPLIT, IdOf(Y.cells[0]), IdOf(X.cells[0]));
  }

  lemma {:induction false} TwoFit(runs: seq<Run>, byId: map<string, Block>, assignment: map<string, int>, i: CellId,
      j: CellId)
    requires |runs| == 2 && RunFits(runs[0], byId, assignment) && RunFits(runs[1], byId, assignment)
    requires runs[0].block.blockId != runs[1].block.blockId && RunCells(runs) == [i, j] && i != j
    ensures RunsFit(runs, byId, assignment)
  {
    hide RunFits, RunCells;
  }

  lemma {:induction false} DifferentCells()
    ensures IdOf(Y.cells[0]) != IdOf(X.cells[0]) && "B0" != "B1"
  {
    assert "B0"[1] != "B1"[1];
  }

  lemma {:induction false} SwappedRecords(d: Digests)
    ensures SwappedRecord(d, 0).blockId == "B0" && SwappedRecord(d, 1).blockId == "B1"
    ensures X.taskId == "T0" && Y.taskId == "T1" && X.blockId == "B0" && Y.blockId == "B1"
    ensures exists raw :: raw in SwappedRecord(d, 0).cells && raw.cell.blockId == "B1"
  {
    var raw := SwappedRecord(d, 0).cells[0];
    assert raw in SwappedRecord(d, 0).cells && raw.cell == Y.cells[0];
  }

  lemma {:induction false} SwappedOwners(d: Digests)
    ensures !CellOwnersFit(Runs([0, 1], SwappedRoots(d)), BlocksById(PAIR.blocks), SPLIT)
  {
    SwappedRuns(d);
    TwoBlocks(X, Y);
    SwappedRecords(d);
    hide Runs, BlocksById, SwappedRoots, SwappedRecord;
    var run := Run(0, SwappedRecord(d, 0));
    var raw :| raw in run.block.cells && raw.cell.blockId == "B1";
    assert !OwnerFits(0, raw.cell.blockId, BlocksById(PAIR.blocks), SPLIT);
    assert Runs([0, 1], SwappedRoots(d))[0] == run;
  }

  lemma {:induction false} SwappedCovers(d: Digests)
    ensures RunsCover(Runs([0, 1], SwappedRoots(d)), PAIR.blocks)
  {
    SwappedRuns(d);
    TwoBlocks(X, Y);
    hide IdOf, Runs, RunIds, RunCells, CellsOf, SwappedRoots, SwappedRecord;
    var (x, y, cells, ran) := (X.cells[0], Y.cells[0], CellsOf(PAIR.blocks), RunCells(Runs([0, 1], SwappedRoots(d))));
    assert cells == [x, y] && cells[0] in cells && cells[1] in cells;
    assert ran[0] in ran && ran[1] in ran;
  }

  lemma {:induction false} SwappedSeparate(d: Digests)
    ensures SeparateEngines(SwappedRoots(d))
  {
    var roots := SwappedRoots(d);
    var (a, b) := (roots[0].body.blocks[0], roots[1].body.blocks[0]);
    assert LaneEpochs(roots[0]) == {"e0"} by { assert a.cells[0] in a.cells && a in roots[0].body.blocks; }
    assert LaneEpochs(roots[1]) == {"e1"} by { assert b.cells[0] in b.cells && b in roots[1].body.blocks; }
  }
}
