# Verified models of the experiment's core

The repository runs a pre-registered comparison of arms: it randomizes arm orders, partitions the
schedule over GPU lanes, cuts retrieved pages into spans, admits work against a token budget, keeps
a spending ledger, approves protocol versions, replays stored decisions, and checks that the
treatment side cannot import the evaluator side. This project models those mechanisms in Dafny and
proves what their comments and documents promise. Where the code does not keep a promise, the
project states a failing input and the exact condition under which the promise holds.

`dafny verify dfyconfig.toml` checks everything.

| File | Models |
|---|---|
| `Randomization`, `Shuffles`, `WilliamsBalance` | Williams squares, the hashed Fisher-Yates shuffle, and the design theorems |
| `Schedule`, `ScheduleBalance` | allocation of design rows to (task, replicate) coordinates and its balance |
| `Blocks`, `BlockBalance` | the frozen schedule of blocks and cells built from that allocation |
| `LaneAssignment` | longest-first lane assignment and the 4/3 bound |
| `Sharding`, `Freeze`, `ShardMerge`, `MergeTheorems` | the lane manifest, sealed lanes, and their merge |
| `Text`, `Chunkers`, `Markdown` | tokenizer, fixed windows, paragraphs and sentences, the markdown scanner |
| `Broker`, `Tick` | greedy joint admission and the retrying tick against a host that may be stale |
| `Budget` | reservations, settlement, caps |
| `Firewall`, `ImportGraph` | the import-graph check, from the import statements on |
| `BlockDesign` | round-robin exposure and the Fedorov exchange |
| `Approval` | the approval chain with a crash between any two writes |
| `SharedView`, `Replay` | the shared page bound, and rebuilding pages from a stored batch |
| `Sorting`, `Arithmetic`, `Options` | shared helpers |

## Conventions

- SHA-256, `derive_seed` and canonical JSON digests are arbitrary functions passed in. Freedom from
  collisions is assumed only where a lemma says so.
- Costs, budgets and amounts are reals without rounding; token counts and weights are naturals.
- A Python exception is an error value, except for the ones proved unreachable: those are an
  `assert false` at the place of the `raise`. In `Schedule` that covers every `raise` and assertion
  of the allocation, and also its last fallback loop, which the code says "can only arise" for
  unusual even designs: it can never run. In `Markdown` it covers the `if not subs` branch.
- A loop or an object that changes state is a method or a class, proved against a specification
  function or predicate; the lemmas are about that specification.

## Promises the code does not keep

- `Budget`: the module's invariant `reserved + settled <= cap` fails after an overrun is charged in
  full and after a cap is tightened below use (`DocumentedInvariantFails`). `EnsureKeepsCapIff` and
  `ResolveKeepsCapIff` say exactly when each step keeps it, and `RunConserves` what always holds.
- `ShardMerge`: the merge compares cells over all lanes together and never compares the block id
  inside a cell with its record's, so two lanes that swapped cells merge (`SwappedCellsMerge`).
  `CellsOnOwnLaneIff` is the exact condition. Lanes sealed by `FreezeRoot` always meet it
  (`SealedLanesMerge`).
- `Sharding`: a built manifest verifies exactly when no two scheduled cells share a key
  (`BuiltVerifiesIff`), so one built for two cells whose ids join to the same key does not
  (`CollidingKeysNeverVerify`); for a schedule planned by `BuildBlocks` it always does
  (`PlannedManifestVerifies`).
- `Replay`: prefilling keeps the last occurrence of repeated bytes, while the live registry
  promises to keep the first (`LineageCanBeLost`); `LineageSurvivesIff` is the exact condition.
- `Approval`: a link left by a crash before the index was written blocks the same configuration at
  its place in the chain for every other time of approval (`RetryAfterOrphanedLink`, `RefusedIff`).

## Model

| member | source | states |
|---|---|---|
| `Randomization.WilliamsFirstRow` | src/shapeflow/experiment/randomization.py:29-42 | the alternating low/high loop yields 0, 1, n-1, 2, n-2, ... in closed form |
| `Randomization.WilliamsSquare` | src/shapeflow/experiment/randomization.py:45-58 | fewer than two treatments are refused; otherwise row i is the first row translated by i, with all row reversals appended for odd n |
| `Randomization.SeededPermutation` | src/shapeflow/experiment/randomization.py:61-71 | the in-place shuffle is the specified sequence of draws and swaps, and a permutation of its input |
| `Shuffles.ShuffleIsChoice` | src/shapeflow/experiment/randomization.py:61-71 | the shuffle is the swaps of one hashed partner for each position |
| `Shuffles.EveryPermutationOnce` | src/shapeflow/experiment/randomization.py:61-71 | every permutation comes from exactly one choice of partners, so the shuffle is fair whenever the draws are |
| `WilliamsBalance.RowsArePermutations` | src/shapeflow/experiment/randomization.py:45-58 | every row runs every treatment once |
| `WilliamsBalance.PositionBalance` | src/shapeflow/experiment/randomization.py:45-58 | every treatment is at every position in exactly one row (n even) or two (n odd), and which rows those are |
| `WilliamsBalance.CarryoverBalance` | src/shapeflow/experiment/randomization.py:3-6 | every ordered pair of treatments is adjacent exactly once (n even) or twice (n odd) over the design |
| `WilliamsBalance.RowsAreDistinct` | src/shapeflow/campaign/schedule.py:277-280 | no two rows of the design are equal, so the duplicate check cannot fire |
| `WilliamsBalance.ClosedUnderReversal` | src/shapeflow/campaign/schedule.py:281-286 | the reversal of each row is a row, at an index that is its own inverse, so the closure check cannot fire |
| `WilliamsBalance.SharedPairOffsets` | src/shapeflow/campaign/schedule.py:320-325 | for odd n two translates share a directed pair only if their offsets differ by (n-1)/2 or (n+1)/2 |
| `WilliamsBalance.SafeWindow` | src/shapeflow/campaign/schedule.py:320-325 | a cyclic window of at most floor(n/2) rows, either direction and family, repeats no treatment at a position and no directed pair |
| `WilliamsBalance.WiderWindowRepeatsAPair` | src/shapeflow/campaign/schedule.py:329-333 | the bound is sharp: one more row and the two end rows repeat a directed pair |
| `Schedule.DesignWithReversals` | src/shapeflow/campaign/schedule.py:277-286 | the lookup finds every reversal; neither raise is reachable |
| `Schedule.PairTypes` | src/shapeflow/campaign/schedule.py:287-290 | the pair types are the row/reversal pairs, each once, in order |
| `Schedule.NeededPairsFit` | src/shapeflow/campaign/schedule.py:300-309 | the reserved reversal pairs always fit the remainder |
| `Schedule.SelectExtraRows` | src/shapeflow/campaign/schedule.py:311-387 | the remainder is filled with distinct rows that include the reserved pairs, or is a safe window, and the fallback never runs |
| `Schedule.BuildPool` | src/shapeflow/campaign/schedule.py:292-390 | the row pool is the complete cycles plus the extra rows and matches the block denominator |
| `Schedule.PairSlots` | src/shapeflow/campaign/schedule.py:397-406 | the pair slots fit the pool and are at least as many as the tasks with a second seed |
| `Schedule.AllocatePairs` | src/shapeflow/campaign/schedule.py:408-432 | paired tasks take a row and its exact reversal out of the pool; the reversal assertion cannot fail |
| `Schedule.AllocateSingles` | src/shapeflow/campaign/schedule.py:434-455 | the remaining tasks take exactly the remaining rows; the count assertion cannot fail |
| `Schedule.AllocationComplete` | src/shapeflow/campaign/schedule.py:434-455 | once both loops are done every coordinate has one row and the pool is used up |
| `Schedule.BalancedWilliamsAssignments` | src/shapeflow/campaign/schedule.py:237-473 | for every arm count, task list and second-seed subset: each coordinate gets one design row, replicate 1 reverses replicate 0, each row is used q or q+1 times with the extra rows named, and the reported policy is the safe window exactly when its conditions hold |
| `ScheduleBalance.PositionsBalanced` | src/shapeflow/campaign/schedule.py:245-258 | each (arm, position) count is its share of the cycles plus at most 1, or 2 for odd n outside the window, and exact with no remainder |
| `ScheduleBalance.CarryoverBalanced` | src/shapeflow/campaign/schedule.py:250-253 | each ordered pair of arms is adjacent equally often to the same tolerance |
| `ScheduleBalance.WindowHoldsOne` | src/shapeflow/campaign/schedule.py:320-325 | a safe window never holds two rows with the same arm at the same position |
| `Blocks.SecondSeedTasks` | src/shapeflow/campaign/schedule.py:186-194 | exactly the rounded number of tasks, and none is chosen over a better ranked one |
| `Blocks.AgendaIsComplete` | src/shapeflow/campaign/schedule.py:203-209 | the (task, replicate) loop visits each coordinate exactly once |
| `Blocks.AgendaInTaskOrder` | src/shapeflow/campaign/schedule.py:203-209 | in task order, the first replicate of a task before its second |
| `Sorting.StringLeIs` | src/shapeflow/campaign/schedule.py:178 | sorted ids are in lexicographic order: a prefix first, else by the first difference |
| `Blocks.BuildBlocks` | src/shapeflow/campaign/schedule.py:138-234 | which guard refuses which input, and otherwise one block per coordinate in task order, the second seeds being the exact number of best ranked tasks, with at least two seeds if there are any |
| `BlockBalance.BlockRunsEveryArm` | src/shapeflow/campaign/schedule.py:171-176 | every block runs every arm, so the comparator, at exactly one position |
| `BlockBalance.SecondSeedReverses` | src/shapeflow/campaign/schedule.py:255-257 | the two blocks of a task with a second seed run opposite arm orders |
| `BlockBalance.CellsRunTheirSeed` | src/shapeflow/campaign/schedule.py:203-223 | every cell names its own block and position; the first replicate runs under the first seed, the second under the second, both under the only one, or under 0 |
| `BlockBalance.SecondSeedDiffers` | src/shapeflow/campaign/schedule.py:208-209 | the two blocks of a task with a second seed share no seed and no replicate id |
| `BlockBalance.ArmsBalancedOverBlocks` | src/shapeflow/campaign/schedule.py:16-19 | over the built blocks, positions and first-order carryover are balanced for every arm and every pair |
| `BlockBalance.KeyNamesCell` | src/shapeflow/campaign/schedule.py:491-492 | a cell key determines block, arm and replicate, whatever characters the arm id has |
| `BlockBalance.PlanNamesCellsOnce` | src/shapeflow/campaign/schedule.py:133-135 | every cell of a planned campaign has its own key and its own id |
| `LaneAssignment.AssignTasksToLanes` | src/shapeflow/campaign/sharding.py:101-135 | every task on exactly one lane, placed longest first on the lightest lane, and no lane above 4/3 - 1/(3m) of any other partition's fullest lane |
| `LaneAssignment.WithinFourThirds` | src/shapeflow/campaign/sharding.py:109-112 | the bound itself, for any greedy descending placement with non-negative costs |
| `LaneAssignment.BigJobFits` | src/shapeflow/campaign/sharding.py:109-112 | when the last job exceeds a third of the optimum the greedy is optimal |
| `LaneAssignment.SmallJobAverages` | src/shapeflow/campaign/sharding.py:109-112 | otherwise averaging over the lanes gives the bound |
| `LaneAssignment.LanesCarryEverything` | src/shapeflow/campaign/sharding.py:129-134 | the loads of the lanes add up to the costs of the tasks |
| `Sharding.CheckLanes` | src/shapeflow/campaign/sharding.py:152-171 | passes exactly for lanes numbered 0..n-1 with their own GPU, ports and root, one of which may spend; a refusal names what is wrong |
| `Sharding.BuildShardManifest` | src/shapeflow/campaign/sharding.py:138-215 | when it builds and why not, and that the body carries the caller's digests and costs and lists each lane's cells and blocks by the task partition, within the 4/3 bound |
| `Sharding.VerifyShardManifest` | src/shapeflow/campaign/sharding.py:218-244 | accepts exactly a self-binding body for this schedule whose listing partitions the cells by task; a rejection names a fault that is there |
| `Sharding.BuiltVerifiesIff` | src/shapeflow/campaign/sharding.py:218-244 | a built manifest verifies if and only if the scheduled cell keys are distinct |
| `Sharding.CollidingKeysNeverVerify` | src/shapeflow/campaign/sharding.py:187-244 | a campaign of two different cells with one key: whatever manifest is built for it never verifies |
| `Freeze.CheckRecord` | src/shapeflow/campaign/schedule.py:587-646 | accepts exactly a signed terminal record of this block with every cell once, an outcome and an epoch each, and a consistent pairing status; every refusal names a fault that is there |
| `Freeze.FittingRecordIsTheBlock` | src/shapeflow/campaign/schedule.py:598-646 | such a record holds the block's cells as a bag, and a paired observation ran under one engine epoch |
| `Freeze.FreezeRoot` | src/shapeflow/campaign/schedule.py:528-676 | seals exactly when the records cover the schedule or the lane's share, each once, and all fit; every refusal names a fault that is there; the root lists them in schedule order |
| `Freeze.SealedRootRepeats` | src/shapeflow/campaign/schedule.py:647-676 | the root states run, schedule, digest and lane, and of each covered block, in schedule order, its digest and exactly what its record says |
| `ShardMerge.MergeBlock` | src/shapeflow/campaign/sharding.py:286-317 | a record is taken exactly when its block is scheduled, new, on its own lane, and none of its cells was seen |
| `ShardMerge.MergeFreezeRoots` | src/shapeflow/campaign/sharding.py:247-372 | merges exactly when the manifest verifies, every lane reports and binds, runs fit and cover, and no two lanes share an epoch; every refusal names a fault that is there; and what the merged root then holds, in which order |
| `MergeTheorems.MergeReconstitutes` | src/shapeflow/campaign/sharding.py:252-258 | an accepted merge holds the scheduled blocks and cells as bags, every block on its task's lane |
| `MergeTheorems.CellsOnOwnLaneIff` | src/shapeflow/campaign/sharding.py:303-316 | every cell ran on its task's lane if and only if the ownership check passes for each cell's own block id |
| `MergeTheorems.SwappedCellsMerge` | src/shapeflow/campaign/sharding.py:303-336 | under any digests, a built manifest over two separate lanes and two bound roots that report each other's cells merge |
| `MergeTheorems.SealedLanesMerge` | src/shapeflow/campaign/schedule.py:545-550 | lanes that each sealed their share on separate engines always merge into the whole schedule, cells on their own lanes |
| `MergeTheorems.PlannedManifestVerifies` | src/shapeflow/campaign/sharding.py:138-244 | the manifest built for a planned campaign always verifies |
| `Text.OffsetsCountWords` | src/shapeflow/evidence/chunkers.py:47-57 | the whitespace tokenizer finds exactly the word starts |
| `Text.OffsetsCover` | src/shapeflow/evidence/chunkers.py:53-54 | its offsets are ordered, disjoint, hold one word each and leave only whitespace between them |
| `Text.CountOfSlice` | src/shapeflow/evidence/chunkers.py:56-57 | counting a slice counts the words that start in it or are cut by its start |
| `Text.WordsConserved` | src/shapeflow/evidence/chunkers.py:164-186 | a covering by spans loses, splits and double counts no word |
| `Chunkers.PartitionConserves` | src/shapeflow/evidence/chunkers.py:219-360 | a partition's token lengths add up to the text's count, its lengths to at most the text's, and each visible character is in exactly one chunk |
| `Chunkers.FixedToken` | src/shapeflow/evidence/chunkers.py:118-141 | which windows are refused; otherwise the exact number of windows, window k over the tokens from k*(window-overlap), and a partition when they do not overlap |
| `Chunkers.WindowsCoverTokens` | src/shapeflow/evidence/chunkers.py:118-141 | every token of the text lies whole in some returned window, at any overlap |
| `Chunkers.WindowsMissOnlyWhite` | src/shapeflow/evidence/chunkers.py:118-141 | so every visible character is in a window, at any overlap |
| `Chunkers.WindowsOverlapExactly` | src/shapeflow/evidence/chunkers.py:118-141 | a returned window that is not the last has `window` tokens and ends before the next one does, and the text the two share holds exactly `overlap` tokens |
| `Chunkers.SplitOffsets` | src/shapeflow/evidence/chunkers.py:150-161 | the loop yields the stretches between the separators, and they cover the range up to whitespace |
| `Chunkers.GapsAreTheRest` | src/shapeflow/evidence/chunkers.py:150-161 | those stretches hold exactly the characters no separator holds |
| `Chunkers.ParagraphsHoldNoBlankLine` | src/shapeflow/evidence/chunkers.py:150-161 | no stretch between paragraph separators holds a blank line |
| `Chunkers.SentencesHoldNoBreak` | src/shapeflow/evidence/chunkers.py:150-161 | no stretch between sentence separators holds whitespace right after a mark |
| `Chunkers.BreaksAreBlankLines` | src/shapeflow/evidence/chunkers.py:146-147 | the paragraph separators are newline, spaces and tabs, newline, and every such match begins inside one of them |
| `Chunkers.BreaksFollowMarks` | src/shapeflow/evidence/chunkers.py:146-147 | each sentence separator begins right after a mark and runs to the end of the whitespace, and no whitespace right after a mark is outside one |
| `Chunkers.ParagraphSentence` | src/shapeflow/evidence/chunkers.py:164-186 | never fails for a cap of at least one, and returns an ordered partition under the token cap whose chunks are whole paragraphs where they fit, else whole sentences where they fit, else windows of the cap's size over one sentence; no chunk holds a blank line and no sentence chunk a sentence break |
| `Chunkers.SentencesOf` | src/shapeflow/evidence/chunkers.py:174-185 | an over-long paragraph is covered by its sentences, or by windows of one that is over the cap |
| `Chunkers.CapBelowOneNeedsBlank` | src/shapeflow/evidence/chunkers.py:164-186 | a cap below one token can only be met on blank text |
| `Markdown.IterLines` | src/shapeflow/evidence/chunkers.py:205-216 | lines tile the text, separated by their newlines |
| `Markdown.PushRefines` | src/shapeflow/evidence/chunkers.py:276-284 | popping and pushing a heading keeps the stack equal to the headings still open by definition |
| `Markdown.BreadcrumbIsChain` | src/shapeflow/evidence/chunkers.py:236-243 | the open headings are the latest heading, then the latest earlier one of smaller level, and so on, with rising levels |
| `Markdown.EmitBlock` | src/shapeflow/evidence/chunkers.py:245-265 | a block that fits is one chunk, and any other its paragraphs and sentences under the cap, moved to their place, with its kind, context and breadcrumb; the empty fallback cannot run |
| `Markdown.EmitTable` | src/shapeflow/evidence/chunkers.py:301-318 | takes the scan past the whole table: after it the blocks so far are still the segmentation of the lines read, header and rows included, and the next line continues no table |
| `Markdown.EmitList` | src/shapeflow/evidence/chunkers.py:330-347 | takes the scan past the whole list in the same sense, each item a block up to the next item or blank line |
| `Markdown.EmitStructure` | src/shapeflow/evidence/chunkers.py:288-358 | takes the scan past the structure that begins there, fence, table, quote, list and paragraph tried in that order; the blocks so far are still the segmentation of the lines read, and a block within the cap is one chunk |
| `Markdown.MarkdownStructure` | src/shapeflow/evidence/chunkers.py:219-360 | the scanner terminates, never fails for a cap of at least one, and returns an ordered partition that is, block after block, the chunks of the segmentation of the lines: each block the next structure with its exact extent, one chunk if it fits the cap and its paragraphs and sentences otherwise, tagged with its kind, its table's header and the headings open at it |
| `Markdown.SegmentationIsUnique` | src/shapeflow/evidence/chunkers.py:219-360 | the lines have only one such segmentation: structures, extents, contexts and breadcrumbs do not depend on the cap |
| `Markdown.BlockReads` | src/shapeflow/evidence/chunkers.py:267-358 | what the lines of a block of each kind are, character by character where no pattern decides, and that the block ends where its kind does |
| `Markdown.NoRowLeftOut` | src/shapeflow/evidence/chunkers.py:307-309 | a table or a list goes on with the next line as long as that line is a row or an item |
| `Markdown.HeadIsBlock` | src/shapeflow/evidence/chunkers.py:277-283 | every heading is a heading block, with the level, title and range of its line |
| `Markdown.BlockIsHead` | src/shapeflow/evidence/chunkers.py:277-283 | and every heading block is one, in order |
| `Markdown.RowNamesItsHeader` | src/shapeflow/evidence/chunkers.py:301-318 | the context of a row chunk is the first line of the header block of its own table, with nothing but rows between, line after line |
| `Markdown.BreadcrumbByPosition` | src/shapeflow/evidence/chunkers.py:236-243 | a chunk carries the open headings among the heading blocks that begin at or before it, and no other line is a heading |
| `SharedView.BoundFitsWindow` | src/shapeflow/evidence/shared_view.py:64-89 | whatever a derived budget bounds, content, completion and scaffolding together fit the model window |
| `SharedView.ApplySharedBudget` | src/shapeflow/evidence/shared_view.py:123-193 | the shrinking loop computes the specified bound, or fails where the original raises |
| `SharedView.BoundedPrefix` | src/shapeflow/evidence/shared_view.py:123-193 | a returned text is a prefix within both bounds, and `truncated` says exactly whether it differs |
| `SharedView.BoundTries` | src/shapeflow/evidence/shared_view.py:160-193 | over the token bound the page is cut after the bound's last token, or after as many tokens fewer as each try re-encodes over it, for at most eight tries; it fails exactly when none of them fits |
| `SharedView.BoundTwice` | src/shapeflow/evidence/shared_view.py:123-193 | bounding a bounded page changes nothing |
| `SharedView.TokenBoundCutsFurther` | src/shapeflow/evidence/shared_view.py:129-147 | without a tokenizer the page is cut at the character bound alone and flagged exactly when it differs; with one, that text is cut further exactly when it has too many tokens |
| `SharedView.CutAfterToken` | src/shapeflow/evidence/chunkers.py:47-57 | cutting after token n of a whitespace tokenization leaves n tokens |
| `SharedView.WhitespaceNeverRaises` | src/shapeflow/evidence/shared_view.py:160-193 | under the whitespace tokenizer the first pass succeeds |
| `Broker.Decide` | src/shapeflow/broker/reference.py:56-87 | the decision is the greedy outcome, well formed, and names every offer as admitted or deferred |
| `Broker.AdmitInOrder` | src/shapeflow/broker/reference.py:69-79 | the admission loop computes the specified admission |
| `Broker.GreedyOptimal` | src/shapeflow/broker/reference.py:39-55 | no choice of items and allowed forms within the capacity admits more items; admitted items have their cheapest form and no deferred item still fits |
| `Broker.PlanWeightIs` | src/shapeflow/broker/reference.py:26-35 | a plan weighs its requests' cached and uncached prefill and decode, summed separately; P1 is its selector alone |
| `Broker.TiesAreBroken` | src/shapeflow/broker/reference.py:63-65 | P1 is taken only when strictly cheaper, and of two offers of one weight the smaller id is admitted first |
| `Broker.ListingRises` | src/shapeflow/broker/reference.py:63-79 | the admitted ids are listed by weight, then id |
| `Broker.Exchange` | src/shapeflow/broker/reference.py:39-55 | measured against the cheapest deferred weight, no choice beats the greedy term by term |
| `Broker.DeferredBlocked` | src/shapeflow/broker/reference.py:69-79 | a deferred candidate still does not fit at the end, and nothing admitted weighs more |
| `Broker.AdmittedCheapest` | src/shapeflow/broker/reference.py:69-79 | an admitted item takes the lightest of its candidates |
| `Broker.JointNeverAdmitsFewer` | src/shapeflow/broker/reference.py:39-55 | offering P1 forms as well never admits fewer items than the P0-only baseline |
| `Broker.AdmissionOrderFree` | src/shapeflow/broker/reference.py:56-79 | the admitted sequence and the forms do not depend on the order of the offers |
| `Broker.GreedyNamesEachOnce` | src/shapeflow/broker/reference.py:67-82 | with unique ids, admitted and deferred together are the offered ids as a bag: none lost, none twice |
| `Tick.RunTick` | src/shapeflow/broker/driver.py:80-156 | against any host, the tick's outcome with its retry count, overrun flag and reason, its calls, solver count and commits are the specified account of what the host did |
| `Tick.P0OnlyCoversAll` | src/shapeflow/broker/driver.py:60-77 | the degraded decision is answerable, keeps the version it was given, and admits every offer as P0 |
| `Tick.TickBounds` | src/shapeflow/broker/driver.py:80-156 | at most max_retries + 1 attempts and max_retries + 2 calls, of which at most the last commits |
| `Tick.StaleFlags` | src/shapeflow/broker/driver.py:115-156 | every call was stale exactly when the host said so, and all but a committing last one were |
| `Tick.OnlyOfferedWork` | src/shapeflow/broker/driver.py:105-129 | every call names only items offered in that attempt, P1 only where the offer has a P1 plan; it is the solver's answer exactly when that was in time, and otherwise everything offered as P0 |
| `Tick.AnswerableIff` | src/shapeflow/broker/driver.py:159-175 | a decision is refused exactly when it names an item nobody offered, or P1 where the last offer of the id has no P1 plan |
| `Tick.TelemetryIsTrue` | src/shapeflow/broker/driver.py:43-57 | the reported stale retries are the calls that found their snapshot stale, a failing last resort aside; the overrun flag is that of the last attempt, and the reason tells a degradation for staleness from one for lateness |
| `Tick.EveryOfferNamedOnce` | src/shapeflow/broker/driver.py:60-67 | under the greedy broker every decision tried names each offer of its attempt exactly once, as admitted or deferred |
| `Tick.CommitNamesEachOnce` | src/shapeflow/broker/driver.py:60-67 | so does the committed one, so no offer leaves the denominator |
| `Tick.DegradedCommitCoversAll` | src/shapeflow/broker/driver.py:60-77 | a commit the driver degraded to covers all offers of its attempt as P0 and is flagged fail-closed |
| `Tick.DegradationUsesFreshSnapshot` | src/shapeflow/broker/driver.py:133-137 | the last resort keeps the stale version but is tried against the next snapshot |
| `Tick.Host.Materialize` | src/shapeflow/broker/host.py:29-40 | a stale call leaves the committed work unchanged |
| `Firewall.PackagesAreDottedPrefixes` | tools/ci/check_leakage_firewall.py:299-302 | a module is in exactly the packages its dotted prefixes name |
| `Firewall.MembershipIs` | tools/ci/check_leakage_firewall.py:518-549 | a module is evaluator material, or on the treatment path, exactly when it is a listed name or goes on after one with a dot |
| `Firewall.FirstEvaluatorChain` | tools/ci/check_leakage_firewall.py:394-418 | returns a shortest path to evaluator material, or none exactly when there is no path |
| `Firewall.FoundShortest` | tools/ci/check_leakage_firewall.py:394-418 | evaluator material met while expanding depth d is at the least possible distance |
| `Firewall.ReportsOn` | tools/ci/check_leakage_firewall.py:560-590 | an edge has a report exactly when it leads to evaluator material, with a shortest chain; the module has none exactly when no path leads from it there |
| `Firewall.CheckReachability` | tools/ci/check_leakage_firewall.py:522-590 | exactly the treatment packages without modules, the treatment modules that are evaluator material and the leaking edges are reported, and a clean verdict holds exactly when no treatment module reaches evaluator material |
| `Firewall.Closure` | tools/ci/check_leakage_firewall.py:592-606 | the closure search ends with genuine chains and nothing left to explore |
| `Firewall.CleanClosureIsReachability` | tools/ci/check_leakage_firewall.py:592-606 | on a clean graph the closure is exactly the known modules reachable from the treatment |
| `ImportGraph.KeepEdges` | tools/ci/check_leakage_firewall.py:337-347 | an import adds exactly the edges to the known prefixes of its target before the first evaluator prefix, and to that one |
| `ImportGraph.BuildGraph` | tools/ci/check_leakage_firewall.py:349-391 | the graph has exactly the edges of each module's import statements and module-name strings |
| `ImportGraph.GraphShowsLeaks` | tools/ci/check_leakage_firewall.py:338-347 | stopping at the first evaluator prefix hides no leak: a module reaches evaluator material in the graph exactly when a chain of loads in the source does |
| `ImportGraph.Check` | tools/ci/check_leakage_firewall.py:522-590 | the verdict over the statements is clean exactly when no chain of loads leads from a treatment module to evaluator material |
| `Budget.BudgetLedger.EnsureAccount` | src/shapeflow/experiment/budget.py:118-150 | creates, tightens or refuses to raise, and keeps the accounts consistent with the rows |
| `Budget.FirstCapOpens` | src/shapeflow/experiment/budget.py:134-139 | the first cap of a resource opens its account, empty |
| `Budget.BudgetLedger.AuthorizeCapRaise` | src/shapeflow/experiment/budget.py:152-208 | raises only with an authorization and a reason, and records both caps |
| `Budget.CapChanges` | src/shapeflow/experiment/budget.py:118-208 | only an authorized raise lifts a cap, recording both values; only ensure_account lowers one; nothing else touches a cap |
| `Budget.CapRefusals` | src/shapeflow/experiment/budget.py:145-194 | which change of a cap is refused, and why |
| `Budget.RaisesLeaveTrace` | src/shapeflow/experiment/budget.py:164-167 | between any two points of any run a cap rises by no more than the raises recorded in between |
| `Budget.BudgetLedger.Reserve` | src/shapeflow/experiment/budget.py:223-240 | all amounts or none: a refusal leaves the ledger as it was |
| `Budget.BudgetLedger.ReserveIn` | src/shapeflow/experiment/budget.py:242-315 | the loop over resources is the specified sequence of single reservations |
| `Budget.BudgetLedger.ResolveIn` | src/shapeflow/experiment/budget.py:345-388 | the selected live rows are settled at the charge, overruns are charged in full and reported |
| `Budget.WorstCaseKeepsUse` | src/shapeflow/experiment/budget.py:328-335 | a worst-case settlement settles every live selected row at exactly what it reserved, reports nothing, and changes no account's use |
| `Budget.ReleaseCharges` | src/shapeflow/experiment/budget.py:337-343 | a release settles every such row at nothing |
| `Budget.SettleCharges` | src/shapeflow/experiment/budget.py:317-326 | a settlement charges every such row the actual usage in full, or nothing where it is missing or negative, and reports it exactly when that exceeds the reservation |
| `Budget.OverrunsReported` | src/shapeflow/experiment/budget.py:370-377 | each overrun is reported once and nothing else is |
| `Budget.HandleSelects` | src/shapeflow/experiment/budget.py:353-369 | the rows selected are those that name the group as attempt, call or own id, and only if there are none those with a derived id |
| `Budget.ReserveThenResolve` | src/shapeflow/experiment/budget.py:223-388 | a fresh reservation resolved under its own handle leaves nothing held and adds to each of its accounts exactly what the resolution charges |
| `Budget.ReserveAllConsistent` | src/shapeflow/experiment/budget.py:242-315 | a reservation keeps totals equal to sums of rows, changes no cap, and leaves each account it touched within its cap |
| `Budget.ReserveAdmitsIff` | src/shapeflow/experiment/budget.py:276-300 | a reservation is admitted exactly when every amount is non-negative, fits the headroom of a known account and its row is new; a refusal names an amount that does not |
| `Budget.ReserveDebits` | src/shapeflow/experiment/budget.py:290-294 | each account is debited its amount and no other changes |
| `Budget.ReserveRecords` | src/shapeflow/experiment/budget.py:295-315 | one live row for each amount, with the caller's call and attempt |
| `Budget.RepeatedClaimIsNewGroup` | src/shapeflow/experiment/budget.py:261-275 | a second identical reservation without a link is another group |
| `Budget.RowsAfter` | src/shapeflow/experiment/budget.py:345-388 | a resolution settles exactly the live rows it selected and touches no other |
| `Budget.ResolveOnce` | src/shapeflow/experiment/budget.py:345-388 | resolving again, at any charge, changes nothing and reports nothing |
| `Budget.HandlePicksItsRows` | src/shapeflow/experiment/budget.py:345-365 | the handle of a fresh reservation selects all its rows and no other live one |
| `Budget.ReleaseUndoesReserve` | src/shapeflow/experiment/budget.py:337-343 | releasing a fresh reservation gives every account back what it had |
| `Budget.RunConserves` | src/shapeflow/experiment/budget.py:106-388 | over any run, totals are the sums of the rows, none is negative, and use never exceeds the highest cap plus the reported overrun |
| `Budget.RunWithinCap` | src/shapeflow/experiment/budget.py:21-23 | the documented invariant on runs without overrun and without a cut below use |
| `Budget.EnsureKeepsCapIff` | src/shapeflow/experiment/budget.py:118-150 | after a cap change use is within the cap exactly when the lower of the two caps covers it, and for a new account exactly when the cap is not negative |
| `Budget.ResolveKeepsCapIff` | src/shapeflow/experiment/budget.py:345-388 | resolving a group leaves use within the cap exactly when charge minus reservation, summed over the live rows it selects, fits the headroom |
| `Budget.DocumentedInvariantFails` | src/shapeflow/experiment/budget.py:21-23 | two runs from an empty ledger after which use exceeds the cap |
| `BlockDesign.AssignToStates` | src/shapeflow/experiment/block_design.py:187-209 | state i takes entries i*p to i*p + p - 1 of the rotation in that order, all different, and every variant's exposure is what the rotation gives it |
| `BlockDesign.ExposureSpread` | src/shapeflow/experiment/block_design.py:187-209 | every exposure is the floor or ceiling of the average, so any two differ by at most one |
| `BlockDesign.WindowOccurrences` | src/shapeflow/experiment/block_design.py:187-209 | one state's turn of the cursor gives each variant in the window once and no other |
| `BlockDesign.FedorovSelect` | src/shapeflow/experiment/block_design.py:115-159 | starts from the forced rows and the first shuffled others; forced rows kept, no duplicate; the rounds stop early only at a single-swap optimum to the tolerance, and otherwise every one of them gained more than the tolerance |
| `BlockDesign.ExchangeRound` | src/shapeflow/experiment/block_design.py:142-158 | a round gains more than the tolerance or proves that no single swap does, and leaves the last slot without an improving swap |
| `Approval.WriteKeeps` | src/shapeflow/protocol.py:322-449 | from any valid state, at any crash point, the chain stays valid, only grows, and a completed call leaves the pointer at the last link |
| `Approval.WritesInOrder` | src/shapeflow/protocol.py:414-449 | link, index entry, pointer, each with this call's configuration, time and number; a crash leaves exactly the writes before it |
| `Approval.LatestAgain` | src/shapeflow/protocol.py:402-413 | approving the latest configuration again only points back to its link |
| `Approval.PlaceOf` | src/shapeflow/protocol.py:429-432 | the place of a link is its number and at most twelve characters of the digest |
| `Approval.RunKeepsHistory` | src/shapeflow/protocol.py:366-449 | over any sequence of calls and crashes nothing indexed is lost or altered |
| `Approval.RefusedIff` | src/shapeflow/protocol.py:345-363 | a call is refused exactly when an unindexed link with other content holds its place |
| `Approval.RetryAfterOrphanedLink` | src/shapeflow/protocol.py:345-363 | after a crash between link and index, the identical call completes and a later approval of the same configuration is refused |
| `Approval.ApprovalStore.WriteApproval` | src/shapeflow/protocol.py:366-449 | the ordered writes are the specified step, at every crash point |
| `Approval.ApprovalStore.CreateLink` | src/shapeflow/protocol.py:345-363 | create-exclusively, accepting an identical file, possibly torn by a crash |
| `Replay.OccurrenceIndex.AddTrace` | src/shapeflow/campaign/replay.py:151-171 | the loops compute the specified index, keeping what was added before an error |
| `Replay.IndexMeaning` | src/shapeflow/campaign/replay.py:136-137 | a trace is accepted exactly when rows are parallel and no occurrence has two documents; it then adds exactly its facts and never changes an entry |
| `Replay.RefusalNamesFault` | src/shapeflow/campaign/replay.py:151-171 | a refusal says which fault the trace has, and an accepted trace counts every pair |
| `Replay.IndexOrderFree` | src/shapeflow/campaign/replay.py:183-212 | the index does not depend on the order in which traces are read |
| `Replay.PageReconstructor.Resolve` | src/shapeflow/campaign/replay.py:266-300 | with any cache a history of calls can leave: verified exactly when the page has an id, its occurrence is indexed, the document is in the corpus and the bytes the budget leaves of it hash to that id, and then with those bytes; a hash mismatch exactly when they do not, and then with no text; each other answer exactly in its own case |
| `Replay.ResolvedExactly` | src/shapeflow/campaign/replay.py:266-300 | the cache-free answer is exactly that account, for every page |
| `Replay.RebuiltExactly` | src/shapeflow/campaign/replay.py:302-319 | every rebuilt page is its entry's answer, so none claims bytes that do not hash to its id; a rebuild fails exactly when the budget fails on some entry's document |
| `Replay.PageReconstructor.Rebuild` | src/shapeflow/campaign/replay.py:303-319 | the cache-free resolutions of all entries, in order |
| `Replay.PageRegistry.Record` | src/shapeflow/campaign/pages.py:43-53 | the content id, first writer wins, nothing for an empty page |
| `Replay.FirstWriterWins` | src/shapeflow/campaign/pages.py:43-53 | the registry serves, for each id, the first page registered under it, filed under the occurrence that brought it or under the id itself |
| `Replay.PageRegistry.Prefill` | src/shapeflow/campaign/pages.py:55-60 | adds every entry whose key is new and changes none |
| `Replay.PrefillServesLiveBytes` | src/shapeflow/campaign/pages.py:43-69 | without collisions, every verified page the live run registered reads the same from a prefilled registry |
| `Replay.ReplayRecoversRun` | src/shapeflow/campaign/replay.py:14-27 | indexing a run's trace, rebuilding its checkpoint and prefilling gives back every page with its own docid and the bytes the run served |
| `Replay.LineageSurvivesIff` | src/shapeflow/campaign/pages.py:30-33 | the replay keeps the first occurrence's lineage exactly when every content id is first and last seen under one occurrence |
| `Replay.LineageCanBeLost` | src/shapeflow/campaign/replay.py:115-121 | a batch of two occurrences of the same bytes loses the first one's lineage |

## Left out

- Hashing and canonical JSON themselves, including the truncation of block ids to 14 digits: ids are assumed distinct and free of colons where a lemma needs it (`GoodIds`).
- Float rounding: lane loads, budget amounts, the second-seed fraction and scores are exact reals.
- `LaneAssignment.AssignTasksToLanes`: the 4/3 bound needs non-negative costs, which the source does not check.
- `Markdown.MarkdownStructure`: the line classifiers are parameters, not regular expressions; a list marker is assumed to be visible text (`ItemsVisible`).
- `Chunkers.ParagraphSentence`: on blank text a cap below one is left unspecified beyond the partition.
- `BlockDesign.FedorovSelect`: the D-criterion is an arbitrary score and the random generator an arbitrary permutation.
- `Sharding.VerifyShardManifest`: shard numbers are integers; parsing them from JSON text keys is not modelled, nor are differently spelled keys of one number.
- `ShardMerge.MergeFreezeRoots`: the merged root's own digest, and values that are not of the expected JSON shape.
- `Freeze.FreezeRoot`: records are typed, so missing or extra JSON fields are not modelled; `freeze_record` only fills such a record and is left to the caller.
- The schedule manifest's free-form notes, claim scope wording and serialization.
- `Approval.ApprovalStore.WriteApproval`: one writer; file modes, temporary names and directory sync are not modelled.
- `ImportGraph.Check`: parsing modules, resolving relative imports, identifier and marker scans, and line numbers; each statement's targets are given.
- `Tick.RunTick`: clocks and solver time are numbers the host supplies; reasons are values, not sentences.
- `Budget.BudgetLedger.ReserveIn`: SQLite transactions appear only as keep or roll back.
- `Replay.PageReconstructor.Rebuild`: malformed checkpoint entries, which the source skips, and the checkpoint's own identifiers.
- Subword tokenizers, engines, the retrieval service, the campaign runner, the execution ledger and all command-line tools.
- `Schedule.BalancedWilliamsAssignments`: which of the admissible rows, pairs, windows and orientations the hashed draws pick is left free; the theorems hold for every pick.
- `LaneAssignment.OrderByCost`: the seeded order of equal costs is left free.
- `Firewall.FirstEvaluatorChain`: which of several equally short chains is returned is left free.
- Small members that would only add easy rows: AB/BA ordering, arm order for one trace block, per-record validators, canary gates, pair exposure and condition numbers.
