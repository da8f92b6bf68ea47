/** Sealing a campaign, or one lane's share of it (src/shapeflow/campaign/schedule.py:528-676):
    every scheduled block is bound to its terminal record. Digests are uninterpreted. */
module Freeze {
  import opened Options
  import opened Sorting
  import opened Blocks
  import opened BlockBalance

  /** A cell of a block record: the scheduled cell and how it ended. */
  datatype FrozenCell = FrozenCell(cell: Cell, state: string, outputRef: string, epoch: string)

  datatype RecordBody = RecordBody(blockId: string, cells: seq<FrozenCell>, terminalFrozen: bool, blockDigest: string,
      engineEpochs: seq<string>, paired: Option<bool>, invalidReason: string)

  datatype Record = Record(body: RecordBody, freezeSha: string)

  /** A block as the root repeats it. */
  datatype FrozenBlock = FrozenBlock(blockId: string, blockDigest: string, freezeSha: string, paired: bool,
      invalidReason: string, engineEpochs: seq<string>, cells: seq<FrozenCell>)

  datatype Share = Share(shardId: int, ownedBlockIds: seq<string>)

  datatype RootBody = RootBody(runId: string, phaseId: string, split: string, schedule: Manifest, scheduleSha: string,
      blocks: seq<FrozenBlock>, share: Option<Share>)

  datatype Root = Root(body: RootBody, recorded: string)

  datatype Digests = Digests(schedule: Manifest -> string, block: Block -> string, record: RecordBody -> string,
      root: RootBody -> string)

  datatype FreezeError =
    | NoRunOrPhase | WrongSplit | BadShare | DuplicateRecord | WrongCoverage | NotTerminal | WrongBlockDigest
    | NoFreezeSha | BadFreezeSha | WrongCellCount | UnscheduledCell | NoEpoch | NoOutcome | WrongEpochIndex
    | NoPairedStatus
    | InconsistentPairing | NoInvalidReason

  datatype FreezeResult = Frozen(root: Root) | Unfrozen(error: FreezeError)

  predicate IsTerminal(state: string) { state in {"COMMITTED", "FAILED_FINAL", "FAILED_UNKNOWN", "BLOCKED_BUDGET"} }

  // ------------------------------------------------------------------ one block

  /** The scheduled cells by id; a repeated id keeps its last cell. */
  function CellsById(cells: seq<Cell>): (m: map<CellId, Cell>)
    ensures forall i :: i in m <==> exists c :: c in cells && IdOf(c) == i
    ensures forall i | i in m :: m[i] in cells && IdOf(m[i]) == i
  {
    if cells == [] then map[] else
      assert cells == cells[..|cells| - 1] + [cells[|cells| - 1]];
      CellsById(cells[..|cells| - 1])[IdOf(cells[|cells| - 1]) := cells[|cells| - 1]]
  }

  /** An outcome: one of the four terminal states, and a reference to what came out. */
  ghost predicate HasOutcome(raw: FrozenCell) {
    && (raw.state == "COMMITTED" || raw.state == "FAILED_FINAL" || raw.state == "FAILED_UNKNOWN"
          || raw.state == "BLOCKED_BUDGET")
    && raw.outputRef != ""
  }

  ghost predicate CellFits(expected: map<CellId, Cell>, raw: FrozenCell) {
    && IdOf(raw.cell) in expected && raw.cell == expected[IdOf(raw.cell)]
    && raw.epoch != "" && HasOutcome(raw)
  }

  ghost predicate CellsFit(expected: map<CellId, Cell>, cells: seq<FrozenCell>) {
    && (forall k | 0 <= k < |cells| :: CellFits(expected, cells[k]))
    && (forall i, j | 0 <= i < j < |cells| :: IdOf(cells[i].cell) != IdOf(cells[j].cell))
  }

  function Epochs(cells: seq<FrozenCell>): set<string> { set c | c in cells :: c.epoch }

  ghost predicate PairingFits(paired: Option<bool>, epochs: set<string>, invalidReason: string) {
    paired.Some? && if paired.value then |epochs| == 1 && invalidReason == "" else invalidReason != ""
  }

  ghost predicate RecordFits(block: Block, record: Record, d: Digests) {
    var body := record.body;
    && body.terminalFrozen && body.blockDigest == d.block(block)
    && |record.freezeSha| == 64 && d.record(body) == record.freezeSha
    && |body.cells| == |CellsById(block.cells)| && CellsFit(CellsById(block.cells), body.cells)
    && Lists(body.engineEpochs, Epochs(body.cells))
    && PairingFits(body.paired, Epochs(body.cells), body.invalidReason)
  }

  function FrozenOf(block: Block, record: Record, d: Digests): FrozenBlock {
    var body := record.body;
    FrozenBlock(block.blockId, d.block(block), record.freezeSha, body.paired == Some(true), body.invalidReason,
      Sort(body.engineEpochs, StringLe), body.cells)
  }

  /** What each refusal of a record says is so. */
  ghost predicate CellFault(e: FreezeError, expected: map<CellId, Cell>, cells: seq<FrozenCell>) {
    match e
    case UnscheduledCell =>
      || (exists k :: 0 <= k < |cells|
            && (IdOf(cells[k].cell) !in expected || cells[k].cell != expected[IdOf(cells[k].cell)]))
      || (exists j, k :: 0 <= j < k < |cells| && IdOf(cells[j].cell) == IdOf(cells[k].cell))
    case NoEpoch => exists k :: 0 <= k < |cells| && cells[k].epoch == ""
    case NoOutcome => exists k :: 0 <= k < |cells| && !HasOutcome(cells[k])
    case _ => false
  }

  ghost predicate RecordFault(e: FreezeError, block: Block, record: Record, d: Digests) {
    var body := record.body;
    match e
    case NotTerminal => !body.terminalFrozen
    case WrongBlockDigest => body.blockDigest != d.block(block)
    case NoFreezeSha => |record.freezeSha| != 64
    case BadFreezeSha => d.record(body) != record.freezeSha
    case WrongCellCount => |body.cells| != |CellsById(block.cells)|
    case _ => CellFault(e, CellsById(block.cells), body.cells) || EpochFault(e, body)
  }

  method CheckCells(expected: map<CellId, Cell>, cells: seq<FrozenCell>)
      returns (failed: Option<FreezeError>, epochs: set<string>)
    ensures failed.None? <==> CellsFit(expected, cells)
    ensures failed.Some? ==> CellFault(failed.value, expected, cells)
    ensures failed.None? ==> epochs == Epochs(cells)
  {
    epochs := {};
    var keys: set<CellId> := {};
    for k := 0 to |cells|
      invariant CellsFit(expected, cells[..k])
      invariant keys == set c | c in cells[..k] :: IdOf(c.cell)
      invariant epochs == Epochs(cells[..k])
    {
      var raw := cells[k];
      var key := IdOf(raw.cell);
      assert cells[..k + 1] == cells[..k] + [raw];
      if key !in expected || raw.cell != expected[key] || key in keys {
        if key in keys {
          var c :| c in cells[..k] && IdOf(c.cell) == key;
          var j :| 0 <= j < k && cells[j] == c;
          assert IdOf(cells[j].cell) == IdOf(cells[k].cell);
        }
        return Some(UnscheduledCell), epochs;
      }
      keys := keys + {key};
      if raw.epoch == "" {
        return Some(NoEpoch), epochs;
      }
      epochs := epochs + {raw.epoch};
      if !IsTerminal(raw.state) || raw.outputRef == "" {
        return Some(NoOutcome), epochs;
      }
    }
    assert cells[..|cells|] == cells;
    return None, epochs;
  }

  /** Two ascending listings agree exactly when one lists the other's elements. */
  lemma {:induction false} SortedListing(declared: seq<string>, listing: seq<string>, observed: set<string>)
    requires Sorted(listing, StringLe) && Distinct(listing) && forall e :: e in listing <==> e in observed
    ensures Sort(declared, StringLe) == listing <==> Lists(declared, observed)
  {
    StringOrder();
    SortSorts(declared, StringLe);
    var sorted := Sort(declared, StringLe);
    if sorted == listing {
      DistinctByMultiset(sorted, declared);
    }
    if Lists(declared, observed) {
      SameElements(declared, listing);
      SortedUnique(sorted, listing, StringLe);
    }
  }

  lemma {:induction false} CellFaultIs(e: FreezeError, block: Block, record: Record, d: Digests)
    requires CellFault(e, CellsById(block.cells), record.body.cells)
    ensures RecordFault(e, block, record, d)
  {}

  method CheckRecord(block: Block, record: Record, d: Digests) returns (failed: Option<FreezeError>)
    ensures failed.None? <==> RecordFits(block, record, d)
    ensures failed.Some? ==> RecordFault(failed.value, block, record, d)
  {
    hide CellsFit, Lists, CellFault, CellsById, Epochs, Sort, StringLe;
    var body := record.body;
    if !body.terminalFrozen { return Some(NotTerminal); }
    if body.blockDigest != d.block(block) { return Some(WrongBlockDigest); }
    if |record.freezeSha| != 64 { return Some(NoFreezeSha); }
    if d.record(body) != record.freezeSha { return Some(BadFreezeSha); }
    var expected := CellsById(block.cells);
    if |body.cells| != |expected| { return Some(WrongCellCount); }
    var bad, epochs := CheckCells(expected, body.cells);
    if bad.Some? {
      CellFaultIs(bad.value, block, record, d);
      return bad;
    }
    failed := CheckEpochs(body, epochs);
    if failed.Some? {
      EpochFaultIs(failed.value, block, record, d);
    }
  }

  lemma {:induction false} EpochFaultIs(e: FreezeError, block: Block, record: Record, d: Digests)
    requires EpochFault(e, record.body)
    ensures RecordFault(e, block, record, d)
  {}

  ghost predicate EpochFault(e: FreezeError, body: RecordBody) {
    match e
    case WrongEpochIndex => !Lists(body.engineEpochs, Epochs(body.cells))
    case NoPairedStatus => body.paired.None?
    case InconsistentPairing =>
      body.paired == Some(true) && (|Epochs(body.cells)| != 1 || body.invalidReason != "")
    case NoInvalidReason => body.paired == Some(false) && body.invalidReason == ""
    case _ => false
  }

  method CheckIndex(declared: seq<string>, epochs: set<string>) returns (ok: bool)
    ensures ok <==> Lists(declared, epochs)
  {
    hide *;
    var observed := SortedStrings(epochs);
    SortedListing(declared, observed, epochs);
    return Sort(declared, StringLe) == observed;
  }

  /** The epoch index and the pairing status. */
  method CheckEpochs(body: RecordBody, epochs: set<string>) returns (failed: Option<FreezeError>)
    requires epochs == Epochs(body.cells)
    ensures failed.None? <==>
      Lists(body.engineEpochs, epochs) && PairingFits(body.paired, epochs, body.invalidReason)
    ensures failed.Some? ==> EpochFault(failed.value, body)
  {
    hide Lists, Epochs;
    var indexed := CheckIndex(body.engineEpochs, epochs);
    if !indexed { return Some(WrongEpochIndex); }
    if body.paired.None? { return Some(NoPairedStatus); }
    if body.paired.value && (|epochs| != 1 || body.invalidReason != "") { return Some(InconsistentPairing); }
    if !body.paired.value && body.invalidReason == "" { return Some(NoInvalidReason); }
    return None;
  }

  // ------------------------------------------------------------------- the root

  /** The ids a root must cover: the whole schedule, or a lane's share of it in schedule order. */
  function ExpectedIds(blocks: seq<Block>, owned: Option<seq<string>>): (ids: seq<string>)
    ensures forall id :: id in ids <==> id in BlockIds(blocks) && (owned.None? || id in owned.value)
    ensures owned.None? ==> ids == BlockIds(blocks)
  {
    if blocks == [] then [] else
      var (head, id) := (blocks[..|blocks| - 1], blocks[|blocks| - 1].blockId);
      assert BlockIds(blocks) == BlockIds(head) + [id];
      ExpectedIds(head, owned) + (if owned.None? || id in owned.value then [id] else [])
  }

  function RecordIds(records: seq<Record>): (ids: seq<string>)
    ensures |ids| == |records|
  {
    seq(|records|, k requires 0 <= k < |records| => records[k].body.blockId)
  }

  function ById(records: seq<Record>): map<string, Record> {
    if records == [] then map[] else
      var last := records[|records| - 1];
      ById(records[..|records| - 1])[last.body.blockId := last]
  }

  function FrozenBlocks(blocks: seq<Block>, byId: map<string, Record>, d: Digests): seq<FrozenBlock> {
    if blocks == [] then [] else
      var (head, last) := (FrozenBlocks(blocks[..|blocks| - 1], byId, d), blocks[|blocks| - 1]);
      if last.blockId in byId then head + [FrozenOf(last, byId[last.blockId], d)] else head
  }

  function Sealed(m: Manifest, runId: string, phaseId: string, records: seq<Record>, shardId: Option<int>,
      owned: Option<seq<string>>, d: Digests): Root {
    var share :=
      if shardId.None? then None else Some(Share(shardId.value, Sort(ExpectedIds(m.blocks, owned), StringLe)));
    var body := RootBody(runId, phaseId, m.split, m, d.schedule(m), FrozenBlocks(m.blocks, ById(records), d), share);
    Root(body, d.root(body))
  }

  /** The records name exactly the expected blocks, each once. */
  ghost predicate Covers(blocks: seq<Block>, records: seq<Record>, owned: Option<seq<string>>) {
    && (forall id | id in RecordIds(records) :: id != "") && Distinct(RecordIds(records))
    && (forall id :: id in RecordIds(records) <==> id in ExpectedIds(blocks, owned))
    && |records| == |ExpectedIds(blocks, owned)|
  }

  ghost predicate AllFit(blocks: seq<Block>, byId: map<string, Record>, d: Digests) {
    forall b | b in blocks && b.blockId in byId :: RecordFits(b, byId[b.blockId], d)
  }

  ghost predicate ValidShare(blocks: seq<Block>, owned: Option<seq<string>>) {
    owned.Some? ==> Distinct(owned.value) && forall id | id in owned.value :: id in BlockIds(blocks)
  }

  /** What a campaign, or a lane's share of it, must be to be sealed. */
  ghost predicate Freezable(m: Manifest, runId: string, phaseId: string, split: string, records: seq<Record>,
      owned: Option<seq<string>>, d: Digests) {
    && runId != "" && phaseId != "" && split == m.split
    && ValidShare(m.blocks, owned)
    && Covers(m.blocks, records, owned) && AllFit(m.blocks, ById(records), d)
  }

  /** What each refusal to seal says is so. */
  ghost predicate RootFault(e: FreezeError, m: Manifest, runId: string, phaseId: string, split: string,
      records: seq<Record>, owned: Option<seq<string>>, d: Digests) {
    match e
    case NoRunOrPhase => runId == "" || phaseId == ""
    case WrongSplit => split != m.split
    case BadShare => !ValidShare(m.blocks, owned)
    case DuplicateRecord => "" in RecordIds(records) || !Distinct(RecordIds(records))
    case WrongCoverage =>
      || (exists id :: id in ExpectedIds(m.blocks, owned) && id !in RecordIds(records))
      || (exists id :: id in RecordIds(records) && id !in ExpectedIds(m.blocks, owned))
      || |records| != |ExpectedIds(m.blocks, owned)|
    case _ => exists b ::
      b in m.blocks && b.blockId in ById(records) && RecordFault(e, b, ById(records)[b.blockId], d)
  }

  /** freeze_root_record. */
  method FreezeRoot(m: Manifest, runId: string, phaseId: string, split: string, records: seq<Record>,
      shardId: Option<int>, owned: Option<seq<string>>, d: Digests) returns (r: FreezeResult)
    ensures r.Frozen? <==> Freezable(m, runId, phaseId, split, records, owned, d)
    ensures r.Frozen? ==> r.root == Sealed(m, runId, phaseId, records, shardId, owned, d)
    ensures r.Unfrozen? ==> RootFault(r.error, m, runId, phaseId, split, records, owned, d)
  {
    hide RecordFits, Covers, AllFit, ValidShare, RecordFault;
    if runId == "" || phaseId == "" { return Unfrozen(NoRunOrPhase); }
    if split != m.split { return Unfrozen(WrongSplit); }
    var valid := CheckShare(m.blocks, owned);
    if !valid { return Unfrozen(BadShare); }
    var failed := IndexCoverage(m.blocks, records, owned);
    if failed.Some? { return Unfrozen(failed.value); }
    var bad, frozen := FreezeBlocks(m.blocks, ById(records), d);
    if bad.Some? { return Unfrozen(bad.value); }
    var share :=
      if shardId.None? then None else Some(Share(shardId.value, Sort(ExpectedIds(m.blocks, owned), StringLe)));
    var body := RootBody(runId, phaseId, split, m, d.schedule(m), frozen, share);
    return Frozen(Root(body, d.root(body)));
  }

  method CheckShare(blocks: seq<Block>, owned: Option<seq<string>>) returns (valid: bool)
    ensures valid <==> ValidShare(blocks, owned)
  {
    if owned.None? { return true; }
    var scheduled := set id | id in BlockIds(blocks);
    var share := set id | id in owned.value;
    DistinctBySize(owned.value);
    assert share - scheduled == {} <==> forall id | id in owned.value :: id in BlockIds(blocks) by {
      assert forall id | id in owned.value :: id in share - scheduled || id in BlockIds(blocks);
    }
    return share - scheduled == {} && |share| == |owned.value|;
  }

  method IndexCoverage(blocks: seq<Block>, records: seq<Record>, owned: Option<seq<string>>)
      returns (failed: Option<FreezeError>)
    ensures failed.None? <==> Covers(blocks, records, owned)
    ensures failed.Some? ==> match failed.value
      case DuplicateRecord => "" in RecordIds(records) || !Distinct(RecordIds(records))
      case WrongCoverage =>
        || (exists id :: id in ExpectedIds(blocks, owned) && id !in RecordIds(records))
        || (exists id :: id in RecordIds(records) && id !in ExpectedIds(blocks, owned))
        || |records| != |ExpectedIds(blocks, owned)|
      case _ => false
  {
    var expected := ExpectedIds(blocks, owned);
    var indexed := IndexRecords(records);
    if indexed.None? { return Some(DuplicateRecord); }
    var byId := indexed.value;
    DistinctLength(RecordIds(records), byId.Keys);
    assert byId.Keys == (set id | id in expected) <==> forall id :: id in RecordIds(records) <==> id in expected by {
      assert forall id :: id in byId.Keys <==> id in RecordIds(records);
      assert forall id :: id in (set x | x in expected) <==> id in expected;
    }
    if byId.Keys != (set id | id in expected) || |byId| != |expected| {
      return Some(WrongCoverage);
    }
    return None;
  }

  lemma {:induction false} OfRecord(e: FreezeError, block: Block, record: Record, d: Digests)
    requires RecordFault(e, block, record, d)
    ensures e !in {NoRunOrPhase, WrongSplit, BadShare, DuplicateRecord, WrongCoverage}
  {}

  method FreezeBlocks(blocks: seq<Block>, byId: map<string, Record>, d: Digests)
      returns (failed: Option<FreezeError>, frozen: seq<FrozenBlock>)
    ensures failed.None? <==> AllFit(blocks, byId, d)
    ensures failed.None? ==> frozen == FrozenBlocks(blocks, byId, d)
    ensures failed.Some? ==>
      exists b :: b in blocks && b.blockId in byId && RecordFault(failed.value, b, byId[b.blockId], d)
    ensures failed.Some? ==>
      failed.value !in {NoRunOrPhase, WrongSplit, BadShare, DuplicateRecord, WrongCoverage}
  {
    hide RecordFits, RecordFault;
    failed, frozen := None, [];
    for k := 0 to |blocks|
      invariant failed.None? && frozen == FrozenBlocks(blocks[..k], byId, d) && AllFit(blocks[..k], byId, d)
    {
      var block := blocks[k];
      assert blocks[..k + 1][..k] == blocks[..k] && blocks[..k + 1] == blocks[..k] + [block];
      if block.blockId in byId {
        failed := CheckRecord(block, byId[block.blockId], d);
        if failed.Some? {
          OfRecord(failed.value, block, byId[block.blockId], d);
          return;
        }
        frozen := frozen + [FrozenOf(block, byId[block.blockId], d)];
      }
    }
    assert blocks[..|blocks|] == blocks;
  }

  method IndexRecords(records: seq<Record>) returns (r: Option<map<string, Record>>)
    ensures r.Some? <==> (forall id | id in RecordIds(records) :: id != "") && Distinct(RecordIds(records))
    ensures r.Some? ==> r.value == ById(records) && forall id :: id in r.value <==> id in RecordIds(records)
  {
    var byId: map<string, Record> := map[];
    for k := 0 to |records|
      invariant byId == ById(records[..k])
      invariant (forall id | id in RecordIds(records[..k]) :: id != "") && Distinct(RecordIds(records[..k]))
      invariant forall id :: id in byId <==> id in RecordIds(records[..k])
    {
      var id := records[k].body.blockId;
      var (before, after) := (RecordIds(records[..k]), RecordIds(records[..k + 1]));
      assert records[..k + 1][..k] == records[..k];
      assert after == before + [id];
      assert after <= RecordIds(records);
      if id == "" || id in byId {
        assert RecordIds(records)[k] == id && id in RecordIds(records);
        if id in byId {
          var j :| 0 <= j < k && before[j] == id;
          assert RecordIds(records)[j] == RecordIds(records)[k];
        }
        return None;
      }
      byId := byId[id := records[k]];
    }
    assert records[..|records|] == records;
    return Some(byId);
  }

  // ------------------------------------------------------------- what a root says

  function Cells(frozen: seq<FrozenCell>): (cells: seq<Cell>)
    ensures |cells| == |frozen|
  {
    seq(|frozen|, k requires 0 <= k < |frozen| => frozen[k].cell)
  }

  /** A record that fits carries every scheduled cell of its block exactly once and nothing
      else, each with an outcome, and is a paired observation only if one engine epoch ran it. */
  lemma {:induction false} FittingRecordIsTheBlock(block: Block, record: Record, d: Digests)
    requires RecordFits(block, record, d) && Distinct(NamesBy(block.cells, IdOf))
    ensures multiset(Cells(record.body.cells)) == multiset(block.cells)
    ensures forall c | c in record.body.cells :: c.epoch != "" && HasOutcome(c)
    ensures record.body.paired == Some(true) ==>
      forall a, b | a in record.body.cells && b in record.body.cells :: a.epoch == b.epoch
  {
    var frozen := record.body.cells;
    hide CellsFit, CellsById, Cells, Lists, Epochs;
    FittingCells(block, frozen);
    DistinctCells(block.cells);
    AllOfThem(Cells(frozen), block.cells);
    SameElements(Cells(frozen), block.cells);
    if record.body.paired == Some(true) {
      forall a, b | a in frozen && b in frozen ensures a.epoch == b.epoch {
        EpochsHold(frozen, a);
        EpochsHold(frozen, b);
        OneElement(Epochs(frozen), a.epoch, b.epoch);
      }
    }
  }

  lemma {:induction false} EpochsHold(cells: seq<FrozenCell>, c: FrozenCell)
    requires c in cells
    ensures c.epoch in Epochs(cells)
  {}

  lemma {:induction false} FittingCells(block: Block, frozen: seq<FrozenCell>)
    requires CellsFit(CellsById(block.cells), frozen)
    ensures Distinct(Cells(frozen)) && forall c | c in Cells(frozen) :: c in block.cells
    ensures forall c | c in frozen :: c.epoch != "" && HasOutcome(c)
  {
    hide HasOutcome;
    var expected := CellsById(block.cells);
    forall c | c in frozen ensures CellFits(expected, c) { var k :| 0 <= k < |frozen| && frozen[k] == c; }
  }

  lemma {:induction false} OneElement<T>(s: set<T>, a: T, b: T)
    requires |s| == 1 && a in s && b in s
    ensures a == b
  {
    if a != b {
      SubsetSize({a, b}, s);
    }
  }

  /** Distinct ids: as many ids as cells, and distinct cells. */
  lemma {:induction false} DistinctCells(cells: seq<Cell>)
    requires Distinct(NamesBy(cells, IdOf))
    ensures Distinct(cells) && |CellsById(cells)| == |cells|
  {
    var ids := NamesBy(cells, IdOf);
    forall i | 0 <= i < |cells| ensures ids[i] in CellsById(cells) { assert cells[i] in cells; }
    forall i, j | 0 <= i < j < |cells| ensures cells[i] != cells[j] { assert ids[i] != ids[j]; }
    forall id ensures id in ids <==> id in CellsById(cells).Keys {
      if id in CellsById(cells) {
        var c :| c in cells && IdOf(c) == id;
        var k :| 0 <= k < |cells| && cells[k] == c;
        assert ids[k] == id;
      }
    }
    DistinctLength(ids, CellsById(cells).Keys);
  }

  lemma {:induction false} AllOfThem<T>(part: seq<T>, whole: seq<T>)
    requires Distinct(part) && Distinct(whole) && |part| == |whole| && forall x | x in part :: x in whole
    ensures forall x | x in whole :: x in part
  {
    var (a, b) := ((set x | x in part), (set x | x in whole));
    DistinctLength(part, a);
    DistinctLength(whole, b);
    forall x | x in whole ensures x in part {
      if x !in part {
        SubsetSize(a, b - {x});
      }
    }
  }

  /** One entry of a root: the block and its record, nothing of either altered. */
  ghost predicate Repeats(f: FrozenBlock, block: Block, record: Record, d: Digests) {
    && f.blockId == block.blockId == record.body.blockId
    && f.blockDigest == d.block(block) == record.body.blockDigest && f.freezeSha == record.freezeSha
    && (f.paired <==> record.body.paired == Some(true)) && f.invalidReason == record.body.invalidReason
    && f.cells == record.body.cells
    && multiset(f.engineEpochs) == multiset(record.body.engineEpochs) && Sorted(f.engineEpochs, StringLe)
  }

  lemma {:induction false} RecordOf(records: seq<Record>, id: string)
    requires id in ById(records)
    ensures ById(records)[id] in records && ById(records)[id].body.blockId == id
  {
    var (head, last) := (records[..|records| - 1], records[|records| - 1]);
    assert records == head + [last];
    if last.body.blockId != id { RecordOf(head, id); }
  }

  lemma {:induction false} FrozenRepeats(blocks: seq<Block>, records: seq<Record>, d: Digests, f: FrozenBlock)
    requires AllFit(blocks, ById(records), d) && f in FrozenBlocks(blocks, ById(records), d)
    ensures exists block, record :: block in blocks && record in records && Repeats(f, block, record, d)
  {
    var (head, last) := (blocks[..|blocks| - 1], blocks[|blocks| - 1]);
    assert blocks == head + [last];
    hide RecordFits, Repeats;
    if f in FrozenBlocks(head, ById(records), d) {
      FrozenRepeats(head, records, d, f);
      var block, record :| block in head && record in records && Repeats(f, block, record, d);
      assert block in blocks;
    } else {
      RecordOf(records, last.blockId);
      assert last in blocks;
      EntryRepeats(last, ById(records)[last.blockId], d);
    }
  }

  lemma {:induction false} EntryRepeats(block: Block, record: Record, d: Digests)
    requires RecordFits(block, record, d) && record.body.blockId == block.blockId
    ensures Repeats(FrozenOf(block, record, d), block, record, d)
  {
    StringOrder();
    SortSorts(record.body.engineEpochs, StringLe);
  }

  /** The entries are the covered blocks, in schedule order. */
  lemma {:induction false} FrozenInOrder(blocks: seq<Block>, byId: map<string, Record>, owned: Option<seq<string>>,
      d: Digests)
    requires forall b | b in blocks :: b.blockId in byId <==> owned.None? || b.blockId in owned.value
    ensures |FrozenBlocks(blocks, byId, d)| == |ExpectedIds(blocks, owned)|
    ensures forall k | 0 <= k < |ExpectedIds(blocks, owned)| ::
      FrozenBlocks(blocks, byId, d)[k].blockId == ExpectedIds(blocks, owned)[k]
  {
    if blocks != [] {
      assert blocks == blocks[..|blocks| - 1] + [blocks[|blocks| - 1]];
      FrozenInOrder(blocks[..|blocks| - 1], byId, owned, d);
    }
  }

  /** What a sealed root says: whose run it is, the whole schedule and its digest, and of every block
      it must cover, in schedule order, exactly what the block's record says. */
  lemma {:induction false} SealedRootRepeats(m: Manifest, runId: string, phaseId: string, records: seq<Record>,
      shardId: Option<int>, owned: Option<seq<string>>, d: Digests)
    requires Freezable(m, runId, phaseId, m.split, records, owned, d)
    ensures var root := Sealed(m, runId, phaseId, records, shardId, owned, d);
      && root.recorded == d.root(root.body) && root.body.runId == runId && root.body.phaseId == phaseId
      && root.body.split == m.split && root.body.schedule == m && root.body.scheduleSha == d.schedule(m)
      && (root.body.share.Some? <==> shardId.Some?)
      && (shardId.Some? ==>
            && root.body.share.value.shardId == shardId.value
            && multiset(root.body.share.value.ownedBlockIds) == multiset(ExpectedIds(m.blocks, owned)))
      && (forall f | f in root.body.blocks ::
            exists block, record :: block in m.blocks && record in records && Repeats(f, block, record, d))
      && |root.body.blocks| == |ExpectedIds(m.blocks, owned)|
      && (forall k | 0 <= k < |root.body.blocks| :: root.body.blocks[k].blockId == ExpectedIds(m.blocks, owned)[k])
  {
    hide RecordFits, Repeats;
    var byId := ById(records);
    forall id ensures id in byId <==> id in RecordIds(records) { RecordKeysAre(records, id); }
    forall b | b in m.blocks ensures b.blockId in byId <==> owned.None? || b.blockId in owned.value {
      var k :| 0 <= k < |m.blocks| && m.blocks[k] == b;
      assert BlockIds(m.blocks)[k] == b.blockId;
    }
    FrozenInOrder(m.blocks, byId, owned, d);
    forall f | f in FrozenBlocks(m.blocks, byId, d)
      ensures exists block, record :: block in m.blocks && record in records && Repeats(f, block, record, d)
    {
      FrozenRepeats(m.blocks, records, d, f);
    }
  }

  lemma {:induction false} RecordKeysAre(records: seq<Record>, id: string)
    ensures id in ById(records) <==> id in RecordIds(records)
  {
    if records != [] {
      var (head, last) := (records[..|records| - 1], records[|records| - 1]);
      RecordKeysAre(head, id);
      assert RecordIds(records) == RecordIds(head) + [last.body.blockId];
    }
  }
}
