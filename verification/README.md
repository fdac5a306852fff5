# A verified model of the Solana indexer's stateful logic

This project models, in Dafny, the parts of the SubQuery Solana node whose
correctness depends on state, on order or on text, and proves what they keep
over every input and every run.

* **The unfinalized-block tracker.** The indexer follows the chain ahead of
  finalization. The tracker keeps the headers above the finalized slot,
  backfills the ones it was not given, decides whether the chain has forked,
  drops what is finalized and names the block to go back to. It is a class with
  its metadata store and its endpoint (`UnfinalizedBlocks`), proved against
  functions on states (`Tracker`); the theorems are in `ForkCheck`, `Rewind`,
  `Registration`, `Runs` and `PoiSearch`, and `Examples` holds concrete runs.
* **Program logs.** `wrapLogs` pushes and pops programs while it reads the lines
  of a transaction (`ProgramLogs`); `CallTree` prints a tree of calls as such
  lines and proves that reading them gives the tree's attribution back.
* **The dictionary query.** Handler filters (`Filters`) are compiled into one
  remote query (`DictionaryBuilder`, with the meaning of a query in
  `DictionaryQuery`); nothing that a filter accepts may be missed.
* **Discriminators.** Names are resolved through an IDL and the answers are
  cached (`Decoder`); the keys of the cache are JSON texts (`Json`).
* **Traversal.** Blocks are numbered (`Blocks`) and handed to the handlers in a
  fixed order (`Indexer`). `Heights` is about blocks without their own slot.

## How the chain is modelled

A `View` is what an endpoint shows at one moment: a map from slots to headers,
plus slots whose lookup fails for another reason. A `Ledger` maps every block
hash of every branch to its header; that it is a map is the hypothesis that a
hash identifies its header. `ChainView` says that a view is one branch: each
block names the block of the previous produced slot as its parent, and its first
block names no known block.

A run (`Runs.Run`) is any sequence of events. The chain may grow, reorganise
above its finalized slot and finalize; finalized headers are registered; headers
are delivered, also from abandoned branches; the list and the saved height are
reset; the process restarts. A call sees one view and one finalized header from
beginning to end. A call that ends in `exitWithError` stops the process, and
only a restart goes on.

`lastCheckedBlockHeight` is `Undefined`, `Null` (what a reset leaves in the
store) or a height, because the code treats the three differently: `null`
compares as zero, and a height of zero counts as absent where a rewind target is
chosen.

## What the proofs found

* An orphan stored for a slot that the finalized chain skips is never reported as
  a fork: below the threshold the walk steps over the slot and runs off the chain,
  above it the single lookup throws. The check gives an answer exactly when the slot
  was produced (`HasForkedExact`, `OrphanAtSkippedSlot`).
* A stored block of the chain is in step with a forked block of the chain when, after
  the one and up to the other, the chain produced as many blocks as are stored after
  it, or one more. The lockstep search finds the highest common block exactly when
  that block is in step and no lookup on the way fails; otherwise it passes it and
  goes on to the end of the list. If the chain has a readable block for every entry
  passed, the target is then the header at the last checked height, and if not, the
  call ends with an error (`SearchExact`, `RewindOutcome`, `LargerLagFallsBack`,
  `SmallerLagFails`). With the same slots skipped on both sides the target is always
  the highest common block (`MaximalRewind`).
* The parent check can also report a delivered header that is not on the chain. The
  target is then the last entry at or below the finalized height if that header
  names it as its parent; and otherwise what the search finds for the other entries
  from the block of the chain below that header (`SearchExact`, `RewindOutcome`).
  `RewindExact`, `ForkWithoutTarget` and `DeliveredFork` hold for both kinds.
* A fork is found and left without a target exactly when the search passes every
  entry and no height above zero was last checked (`ForkWithoutTarget`). While the
  process runs this needs a last checked height of zero
  (`DeliveredForkWithoutTarget`). At start-up no height being saved is enough, as
  before the first deletion: the fork is found, no rewind follows and the list is
  dropped (`StartupForkDropped`, `StartupDropsFork`).
* The target is on the finalized chain except in one case, in which it never is:
  a header of an abandoned branch arrives right after the list and names as its
  parent the last entry at or below the finalized height, an orphan that is not
  the last of the list (`Misleads`, `RewindTargetIsFinal`, `LateBlockMisleads`). A
  header of the current view never does this, and dropping finalized headers stays
  safe for every header.
* When memory and store agree before a call, they differ after it exactly when
  backfilling appended something before the registration ended in a fork or an error
  (`StoreAgrees`).
* The deletion reads the finalized height again. If a higher header is registered
  after the check, the entries dropped are on the finalized chain exactly when the
  last of them is: when a check against that header, if it gives an answer, would
  find no fork (`LateFinalization`).
* A handler whose filter has no field adds nothing to the query. What it accepts is
  all selected exactly when some handler needs every block, or no handler at all has
  a field, or a handler of the same kind has a field that constrains nothing
  (`FieldlessTransactions`, `FieldlessLogs`, `FieldlessInstructions`). Next to a log
  handler for a program, not one transaction is selected (`FieldlessHandlerIsLost`).
* The name filter and the decoder agree exactly when no earlier discriminator of
  the IDL begins, or is begun by, the one named (`NameFilterExact`).
* The discriminator cache belongs to the decorated method and not to a decoder. The
  program constructs one decoder (`packages/node/src/solana/api.service.solana.ts:71`),
  and for one decoder the cache never changes an answer (`MemoIsCoherent`). Two
  would need IDLs that resolve alike (`SharedCacheExact`).
* An inner group is dropped by the traversal exactly when its index lies beyond
  the top-level instructions (`InstructionsConserved`).
* Without their slots, the heights of a chain's blocks increase unless its first
  two blocks name the same parent slot, as those in slots zero and one do
  (`SlotlessOrder`, `FirstBlocksCollide`). After a skipped slot such a height is
  that of a skipped slot, and a header stored under it stops the fork check once it
  is the entry to compare (`SlotlessHeaderStopsCheck`).

The meaning of a dictionary query is an assumption, since the service that answers
it is not part of this repository: accounts are matched among all those that a
transaction loads, lookup tables included, and a discriminator is matched as a
prefix of the text of the data. Under it a condition may select more instructions
than the local filter then accepts, and never fewer (`InstructionConditionExact`).

## Model

| member | source | states |
|---|---|---|
| Chain.ParentByHeightExact | packages/node/src/indexer/unfinalizedBlocks.service.ts:463-472 | Stepping back over skipped slots succeeds with a header exactly when it is the greatest produced slot at or below the argument and no slot passed on the way fails. |
| UnfinalizedBlocks.UnfinalizedBlocksService.Init | packages/node/src/indexer/unfinalizedBlocks.service.ts:85-115 | Start-up loads list and height, checks them and resets both, also after a rewind; the new state and result are those of `Tracker.Init`. |
| UnfinalizedBlocks.UnfinalizedBlocksService.ProcessUnfinalizedBlockHeader | packages/node/src/indexer/unfinalizedBlocks.service.ts:121-141 | Registers, checks, then deletes or names a target; state, store and result are those of `Tracker.Process`, on every path including thrown errors. |
| UnfinalizedBlocks.UnfinalizedBlocksService.RegisterUnfinalizedBlock | packages/node/src/indexer/unfinalizedBlocks.service.ts:161-210 | The list and the saved list after registering one header, for every header and list. |
| UnfinalizedBlocks.UnfinalizedBlocksService.BackfillSkippedSlots | packages/node/src/indexer/unfinalizedBlocks.service.ts:212-239 | The loop over the missing slots appends what `Tracker.Backfill` appends and stops where it stops. |
| UnfinalizedBlocks.UnfinalizedBlocksService.DeleteFinalizedBlock | packages/node/src/indexer/unfinalizedBlocks.service.ts:241-258 | What is removed and saved, and that the last checked height becomes the finalized one. |
| UnfinalizedBlocks.UnfinalizedBlocksService.HasForkedNow | packages/node/src/indexer/unfinalizedBlocks.service.ts:269-322 | The verdict of the fork check and exactly which slots are asked for, in order. |
| UnfinalizedBlocks.UnfinalizedBlocksService.WalkBack | packages/node/src/indexer/unfinalizedBlocks.service.ts:303-310 | The loop over parent blocks gives the header, error and lookups of the recursive walk, and terminates. |
| UnfinalizedBlocks.UnfinalizedBlocksService.GetLastCorrectFinalizedBlock | packages/node/src/indexer/unfinalizedBlocks.service.ts:324-360 | The loop over the stored entries gives the target of `Tracker.LastCorrect` and changes no state. |
| UnfinalizedBlocks.UnfinalizedBlocksService.GetParentHeaderByHeight | packages/node/src/indexer/unfinalizedBlocks.service.ts:463-472 | The result and the slots asked for when stepping back over skipped slots. |
| ForkCheck.FiltersCut | packages/node/src/indexer/unfinalizedBlocks.service.ts:254-258 | On an increasing list the removal filter keeps a suffix and the target filter a prefix, cut at the same place. |
| ForkCheck.ClosestIsLast | packages/node/src/indexer/unfinalizedBlocks.service.ts:261-266 | The closest record is the last entry at or below the height. |
| ForkCheck.OlderEntriesOnView | packages/node/src/indexer/unfinalizedBlocks.service.ts:196-207 | If one entry is on the chain, the hash links put every older entry on it, in consecutive produced slots. |
| ForkCheck.NoForkMeansFinalized | packages/node/src/indexer/unfinalizedBlocks.service.ts:132-134 | When no fork is found, every entry at or below the finalized height is the finalized chain's block, although only one was compared. |
| ForkCheck.WalkExact | packages/node/src/indexer/unfinalizedBlocks.service.ts:302-311 | The walk arrives exactly when the target slot was produced and no slot on the way fails, and then with the chain's header. |
| ForkCheck.ShortcutRefinesWalk | packages/node/src/indexer/unfinalizedBlocks.service.ts:295-311 | For every gap, the single lookup and the walk give the same header, and one gives none exactly when the other does. |
| ForkCheck.HasForkedExact | packages/node/src/indexer/unfinalizedBlocks.service.ts:269-322 | The check answers exactly when the compared slot was produced and reachable, and reports a fork exactly when the compared entry is not the chain's block there. |
| ForkCheck.ForkProbesExact | packages/node/src/indexer/unfinalizedBlocks.service.ts:295-311 | An answer costs one lookup above the threshold, and otherwise each slot from below the finalized one to the compared one, once. |
| Examples.OrphanAtSkippedSlot | packages/node/src/indexer/unfinalizedBlocks.service.ts:303-310 | A state that a run reaches, without failing lookups, in which a fork below the finalized slot ends in an error instead of a report. |
| Rewind.SearchSafeExactly | packages/node/src/indexer/unfinalizedBlocks.service.ts:334-341 | From a forked header of any branch, the entry found is on the chain exactly when the first comparison does not already meet an orphan. |
| Rewind.RewindSafe | packages/node/src/indexer/unfinalizedBlocks.service.ts:324-360 | From a forked header of any branch, the target lies between the last checked and the finalized height, and is on the finalized chain exactly when the search does not meet an orphan at once. |
| Rewind.ChainMeetsNoOrphan | packages/node/src/indexer/unfinalizedBlocks.service.ts:335-340 | A forked header of the chain itself never meets an orphan. |
| Rewind.SearchExact | packages/node/src/indexer/unfinalizedBlocks.service.ts:334-351 | From a reported header on or off the chain: the entry that the search finds, exactly when it passes all entries, and otherwise which error it ends with. |
| Rewind.RoomExact | packages/node/src/indexer/unfinalizedBlocks.service.ts:346-349 | Without failing lookups there is room for n steps exactly when the chain has produced more than n blocks up to the forked one. |
| Rewind.RewindExact | packages/node/src/indexer/unfinalizedBlocks.service.ts:324-360 | For every header that can be reported, the target is the highest stored block on the chain exactly when the search comes to it. |
| Rewind.RewindOutcome | packages/node/src/indexer/unfinalizedBlocks.service.ts:324-360 | For every header that can be reported: the entry that the search comes to; if it passes all, the header at the last checked height or none; otherwise the error. |
| Rewind.MaximalRewind | packages/node/src/indexer/unfinalizedBlocks.service.ts:324-351 | When the stored entries occupy exactly the produced slots, the target is the highest stored block on the chain. |
| Rewind.FallbackRewind | packages/node/src/indexer/unfinalizedBlocks.service.ts:353-359 | When moreover no stored block is on the chain, and no slot from the last checked to the forked one fails, the target is the header at the last checked height, or none if that height is zero. |
| Rewind.ForkWithoutTarget | packages/node/src/indexer/unfinalizedBlocks.service.ts:353-355 | A fork, whatever header it is reported with, gets no target exactly when the search passes every entry and there is no usable last checked height. |
| Examples.LargerLagFallsBack | packages/node/src/indexer/unfinalizedBlocks.service.ts:334-351 | A state that a run reaches in which a stored common block is passed over and the target is below it. |
| Examples.SmallerLagFails | packages/node/src/indexer/unfinalizedBlocks.service.ts:334-351 | A state that a run reaches, without failing lookups, in which the search passes a stored common block and the call throws. |
| Registration.BackfillFollows | packages/node/src/indexer/unfinalizedBlocks.service.ts:216-238 | From an entry on the view, backfilling appends every produced block of the range in order and finds no fork. |
| Registration.BackfillStops | packages/node/src/indexer/unfinalizedBlocks.service.ts:227-233 | From an orphan, backfilling reports the first produced block and appends nothing. |
| Registration.RegisterAppends | packages/node/src/indexer/unfinalizedBlocks.service.ts:161-239 | Whatever the view and the header, a registration that finds no fork appends exactly the blocks produced in the gap, in order, then the header, and saves the list. |
| Registration.RegisterExact | packages/node/src/indexer/unfinalizedBlocks.service.ts:161-239 | For a header of any branch: which of the first block of the gap, the header and nothing is reported, and what is appended and saved in each case. |
| Registration.RegisterCurrent | packages/node/src/indexer/unfinalizedBlocks.service.ts:161-239 | For a header of the view, no fork is found exactly when the last entry is on the view; otherwise the first produced block of the gap is reported and nothing changes. |
| Registration.RegisteredListOnView | packages/node/src/indexer/unfinalizedBlocks.service.ts:196-209 | After a header of the view is registered, every entry of the list is on the view. |
| Registration.BackfillExact | packages/node/src/indexer/unfinalizedBlocks.service.ts:212-239 | On any view backfilling ends at the first failing slot, at the first block that does not name the last entry as its parent, or at the end, having appended every produced block up to there, in order. |
| Registration.RegisterKeeps | packages/node/src/indexer/unfinalizedBlocks.service.ts:161-210 | Whatever header is registered, the list only grows, stays linked and increasing, and a block that is reported is on the view or is that header. |
| Runs.DeleteKeeps | packages/node/src/indexer/unfinalizedBlocks.service.ts:241-258 | Deleting splits the list into what is at most and what is above the finalized height, keeps and saves the latter. |
| Runs.ProcessKeeps | packages/node/src/indexer/unfinalizedBlocks.service.ts:121-141 | Every call, whatever its outcome, keeps the invariant of memory and store. |
| Runs.NoForkLeaves | packages/node/src/indexer/unfinalizedBlocks.service.ts:132-134 | After a call without a fork, all entries are above the finalized height, which is the last checked one; pruned and remaining entries make up the registered list. |
| Runs.SavedAfterRegister | packages/node/src/indexer/unfinalizedBlocks.service.ts:207-209 | A header that a call registers is saved with the whole list, also when the call then finds a fork or throws. |
| Runs.StoreAgrees | packages/node/src/indexer/unfinalizedBlocks.service.ts:161-239 | When memory and store agree before a call, they differ after it exactly when backfilling appended something before the registration ended in a fork or an error. |
| Runs.InitKeeps | packages/node/src/indexer/unfinalizedBlocks.service.ts:94-113 | Start-up keeps the store well-formed; when it succeeds, list and saved list are empty, and a list that was there has been reset. |
| Runs.StepKeeps | packages/node/src/indexer/unfinalizedBlocks.service.ts:121-258 | Every event of a run keeps the invariant. |
| Runs.InvHolds | packages/node/src/indexer/unfinalizedBlocks.service.ts:121-258 | In every reachable state the list is linked and above the last checked height, the saved list is a prefix of it, and both heights are finalized slots of the chain. |
| Runs.FinalizedIsHighest | packages/node/src/indexer/unfinalizedBlocks.service.ts:151-159 | Between two start-ups of any run the finalized header never moves back and is the highest of those registered, in whatever order they came. |
| Runs.ResetThenRestart | packages/node/src/indexer/unfinalizedBlocks.service.ts:424-439 | After both resets, in either order, the next start-up names no target and leaves an empty list and no height in memory and store, whatever went before. |
| Runs.PrunedIsFinalForever | packages/node/src/indexer/unfinalizedBlocks.service.ts:241-258 | Over any run, every header ever dropped as finalized is the finalized chain's block at its slot, then and in every later state. |
| Runs.ForkOnView | packages/node/src/indexer/unfinalizedBlocks.service.ts:121-130 | Only the parent check can report a header that is not on the view, and then it is the delivered one. |
| Runs.MisleadingIsReported | packages/node/src/indexer/unfinalizedBlocks.service.ts:183-205 | A header that follows the list directly and names an orphan below its end as parent is reported by the parent check, and nothing changes. |
| Runs.OnlyMisleadingMeetsOrphan | packages/node/src/indexer/unfinalizedBlocks.service.ts:121-130 | No other call makes the search for the target meet an orphan. |
| Runs.RewindTargetIsFinal | packages/node/src/indexer/unfinalizedBlocks.service.ts:121-141 | Over any run, every target lies between the last checked and the finalized height; it is on the finalized chain, then and in every later state, exactly when the delivered header is not such a one. |
| Runs.CurrentHeaderNeverMisleads | packages/node/src/indexer/unfinalizedBlocks.service.ts:196-205 | A header of the endpoint's current view misleads no call. |
| Runs.StartupForkDropped | packages/node/src/indexer/unfinalizedBlocks.service.ts:94-113 | In any run, a start-up that finds a fork goes on without a rewind exactly when the search passes every entry and no usable height was saved; list, saved list and saved height are then dropped. |
| Runs.DeliveredForkWithoutTarget | packages/node/src/indexer/unfinalizedBlocks.service.ts:353-355 | While the process runs, a fork, whatever header it is reported with, is left without a target exactly when the last checked height is zero and the search passes every entry. |
| Runs.DeliveredFork | packages/node/src/indexer/unfinalizedBlocks.service.ts:121-141 | In any run, the outcome of every delivery that finds a fork: an entry, the header at the last checked height, or an error, each exactly when the search ends so. |
| Runs.LateFinalization | packages/node/src/indexer/unfinalizedBlocks.service.ts:241-258 | With a later finalized header registered between check and deletion, what is dropped is on the finalized chain exactly when its last entry is, or a check against the later header would find no fork. |
| Examples.LateBlockMisleads | packages/node/src/indexer/unfinalizedBlocks.service.ts:196-205 | A state that a run reaches in which a late block of an abandoned branch is delivered and the target is an orphan. |
| Examples.StartupDropsFork | packages/node/src/indexer/unfinalizedBlocks.service.ts:94-113 | A state that a run reaches in which start-up finds a fork, gives no target and drops the list. |
| Examples.DropsFinalized | packages/node/src/indexer/unfinalizedBlocks.service.ts:241-251 | A state that a run reaches in which a delivered header is dropped as finalized. |
| PoiSearch.SearchPage | packages/node/src/indexer/unfinalizedBlocks.service.ts:382-399 | The loop over one page gives what the scan of its rows gives. |
| PoiSearch.FindFinalizedUsingPoi | packages/node/src/indexer/unfinalizedBlocks.service.ts:363-406 | For every table and page size the paged search terminates with the result of scanning all rows at or below the height. |
| PoiSearch.ScanExact | packages/node/src/indexer/unfinalizedBlocks.service.ts:381-405 | The header found is that of the greatest id whose hash matches, with all newer rows looked up and different; nothing is found exactly when no row matches. |
| PoiSearch.PageSplits | packages/node/src/indexer/unfinalizedBlocks.service.ts:401-402 | Continuing below a page's last id loses and repeats no row. |
| ProgramLogs.SplitExact | packages/node/src/solana/block.solana.ts:128 | The pieces of a split line hold no space and join back to the line. |
| ProgramLogs.WrapLogs | packages/node/src/solana/block.solana.ts:81-168 | The loop with its stack gives the output, the null or the error of the scan over the lines. |
| ProgramLogs.WrapLogsExact | packages/node/src/solana/block.solana.ts:88-158 | For any lines: an error exactly when a mode is unknown; else one message for each log, data or return line, in order, with its text, index, kind and the program of the last invoke still running. |
| ProgramLogs.PositionsExact | packages/node/src/solana/block.solana.ts:129-143 | The stack holds exactly the invokes that have not ended, innermost last, pops on an empty stack being ignored. |
| CallTree.ReadProgramLine | packages/node/src/solana/block.solana.ts:127-146 | A line about a program is read as its address and mode and never taken for a tagged line. |
| CallTree.PrintAllScans | packages/node/src/solana/block.solana.ts:88-158 | Reading printed items from any state adds exactly their messages and leaves the stack as it was. |
| CallTree.RoundTrip | packages/node/src/solana/block.solana.ts:81-158 | For every call tree, reading its printed lines gives each message the program of the node that wrote it and an empty stack. |
| Filters.FilterInstructionsProcessor | packages/node/src/solana/utils.solana.ts:79-127 | The loop with early exits gives the verdict of the filter: failure, program, every account position, discriminator prefix, or the parser's error. |
| Bytes.HexPrefix | packages/node/src/indexer/dictionary/v2/solanaDictionaryV2.ts:82 | Hexadecimal texts are prefixes of each other exactly when the bytes are. |
| Json.TextInjective | packages/node/src/utils/decorators.ts:42 | Different JSON values have different texts, with strings escaped as in section 7 of RFC 8259. |
| DictionaryQuery.InstructionKeyInjective | packages/node/src/indexer/dictionary/v2/solanaDictionaryV2.ts:123-126 | Different instruction conditions have different keys. |
| DictionaryQuery.UniqByExact | packages/node/src/indexer/dictionary/v2/solanaDictionaryV2.ts:109-139 | Removing duplicates by key loses no condition and keeps none twice. |
| DictionaryBuilder.SanitisedEntries | packages/node/src/indexer/dictionary/v2/solanaDictionaryV2.ts:109-139 | Cleaning keeps exactly the conditions that were there, each once, and leaves no section empty. |
| DictionaryBuilder.BuildDictionaryV2QueryEntry | packages/node/src/indexer/dictionary/v2/solanaDictionaryV2.ts:141-204 | The nested loops, with their early exits, give the query built from the flat list of handlers. |
| DictionaryBuilder.TxConditionExact | packages/node/src/indexer/dictionary/v2/solanaDictionaryV2.ts:46-56 | A transaction condition matches exactly the transactions its filter accepts. |
| DictionaryBuilder.LogConditionExact | packages/node/src/indexer/dictionary/v2/solanaDictionaryV2.ts:97-107 | A log condition matches exactly the logs its filter accepts. |
| DictionaryBuilder.InstructionConditionExact | packages/node/src/indexer/dictionary/v2/solanaDictionaryV2.ts:58-95 | Under the stated meaning of a condition, it matches all that its filter accepts; of what it matches, the filter accepts exactly the instructions whose constrained accounts are not from lookup tables. |
| DictionaryBuilder.BuildExact | packages/node/src/indexer/dictionary/v2/solanaDictionaryV2.ts:141-204 | The query asks for everything exactly when some handler needs everything or none has a field; otherwise its sections hold exactly the conditions of the handlers with a field. |
| DictionaryBuilder.TransactionsExact | packages/node/src/indexer/dictionary/v2/solanaDictionaryV2.ts:161-172 | The query selects exactly the transactions accepted by some transaction handler with a field. |
| DictionaryBuilder.LogsExact | packages/node/src/indexer/dictionary/v2/solanaDictionaryV2.ts:185-197 | The query selects exactly the logs accepted by some log handler with a field. |
| DictionaryBuilder.NothingLost | packages/node/src/indexer/dictionary/v2/solanaDictionaryV2.ts:141-204 | Whatever a handler without a filter, or with at least one field, accepts is selected by the query. |
| DictionaryBuilder.FieldlessTransactions | packages/node/src/indexer/dictionary/v2/solanaDictionaryV2.ts:161-172 | A transaction filter without a field accepts everything; all transactions with signers are selected exactly when the handlers ask for everything or one of them has an empty signer. |
| DictionaryBuilder.FieldlessLogs | packages/node/src/indexer/dictionary/v2/solanaDictionaryV2.ts:185-197 | A log filter without a field accepts everything; all logs that belong to a program are selected exactly when the handlers ask for everything or one of them has an empty program. |
| DictionaryBuilder.FieldlessInstructions | packages/node/src/indexer/dictionary/v2/solanaDictionaryV2.ts:173-184 | An instruction filter without a field accepts what did not fail; all such instructions with indices in range are selected exactly when the handlers ask for everything or one has a filter with a field that constrains neither program nor accounts. |
| DictionaryBuilder.FieldlessHandlerIsLost | packages/node/src/indexer/dictionary/v2/solanaDictionaryV2.ts:161-172 | Next to a log handler for a program, a transaction handler with an empty filter accepts every transaction and none is selected. |
| Decoder.FindForData | packages/node/src/solana/decoder.ts:40-55 | The first instruction whose discriminator the data starts with, skipping those without one. |
| Decoder.FindByName | packages/common-solana/src/codegen/idl.ts:76-80 | The first instruction with the name or its camel-case form. |
| Decoder.NameFilterExact | packages/node/src/solana/decoder.ts:195-214 | The prefix test with a resolved name and the decoder's search agree on all data exactly when no earlier discriminator clashes. |
| Decoder.NameFilterAccepts | packages/node/src/solana/utils.solana.ts:113-124 | A filter with a program and a name accepts, among all instructions, exactly that program's instructions which the decoder takes for the named one, if and only if no earlier discriminator clashes. |
| Decoder.KeyInjective | packages/node/src/utils/decorators.ts:42 | Different arguments have different cache keys. |
| Decoder.SolanaDecoder.LoadIdls | packages/node/src/solana/decoder.ts:166-183 | The loop loads what is not loaded yet, in order, up to the first failure. |
| Decoder.SolanaDecoder.ParseDiscriminator | packages/node/src/utils/decorators.ts:41-59 | The memoised call answers from the cache, or computes and stores; errors are not stored. |
| Decoder.LoadKeeps | packages/node/src/solana/decoder.ts:171-178 | Loading never replaces a loaded IDL. |
| Decoder.MemoIsCoherent | packages/node/src/utils/decorators.ts:38-59 | After any calls on one decoder the memoised answer is the uncached one, and after any further calls it is unchanged unless it was an error. |
| Decoder.SharedCacheExact | packages/node/src/utils/decorators.ts:38-59 | After any calls on two decoders sharing the cache, all further answers of both are the uncached ones exactly when whatever one of them resolves the other resolves alike. |
| Indexer.IndexerManager.IndexItem | packages/node/src/indexer/indexer.manager.ts:190-198 | An item goes to every datasource once, in order. |
| Indexer.IndexerManager.IndexTransactionItems | packages/node/src/indexer/indexer.manager.ts:138-160 | The calls made for one transaction, in order. |
| Indexer.IndexerManager.IndexBlockData | packages/node/src/indexer/indexer.manager.ts:130-163 | The calls made for a whole block, in order. |
| Indexer.EachDatasource | packages/node/src/indexer/indexer.manager.ts:165-208 | Every datasource is given every item once, in the same order. |
| Indexer.InstructionsConserved | packages/node/src/indexer/indexer.manager.ts:140-156 | All instructions are handed out, each as often as it occurs, exactly when no non-empty inner group is out of range. |
| Indexer.PathsExact | packages/node/src/indexer/indexer.manager.ts:146-156 | The paths handed out increase strictly exactly when no two non-empty inner groups share an index. |
| Indexer.BlockOrder | packages/node/src/indexer/indexer.manager.ts:130-161 | Block, transactions, instructions by path and logs by index follow one strictly increasing order exactly when each transaction's instructions and logs do. |
| Indexer.RawsConserved | packages/node/src/solana/block.solana.ts:209-263 | The instructions handed out for a transformed transaction come from exactly its raw ones, each as often as it occurs, if and only if every non-empty inner group is in range. |
| Indexer.BlockHandedOut | packages/node/src/solana/block.solana.ts:209-263 | A whole transformed and indexed block as one datasource sees it: every transaction's items, strictly increasing exactly when non-empty groups share no index and attributed logs are ordered, with no instruction lost exactly when groups are in range. |
| Heights.HeaderExact | packages/node/src/solana/block.solana.ts:276-288 | With its slot a block's header is the chain's; without it, exactly when the slot before is the parent's, and it is too high exactly when the parent's slot is not lower, which only happens to a first block. |
| Heights.SlotlessOrder | packages/node/src/indexer/dictionary/v2/solanaDictionaryV2.ts:345-364 | Heights without slots increase along the chain exactly when the first two do, and the last buffered height passes the last block's slot exactly when that block is alone and its parent's slot is not lower. |
| Heights.FirstBlocksCollide | packages/node/src/solana/block.solana.ts:281-283 | The blocks in slots zero and one get the same height without their slots. |
| Heights.SlotlessHeaderStopsCheck | packages/node/src/indexer/unfinalizedBlocks.service.ts:269-322 | A header made without its slot, after a skipped one, leaves the fork check without an answer once it is the entry to compare. |

## Left out

- Asynchrony: in a run, one call sees one view and one finalized header; a finalization or reorganisation between the lookups of a single call is not modelled, except that `LateFinalization` says what a later finalized header does to the deletion. The last checked height, read once more at its end, is taken to be the height that was deleted up to.
- Delivered headers are those of known blocks, with their own slots. Headers of dictionary blocks, made without a slot, have another height after a skipped slot; `SlotlessHeaderStopsCheck` says what one does to the check, and the runs leave them out.
- Calls before `init`, which throw because nothing is loaded yet.
- UnfinalizedBlocks.UnfinalizedBlocksService.Init: the reindex callback is taken to reset the list and the saved height, as the branch without a rewind does; what it does beyond this service is in `@subql/node-core`, which is not part of this model.
- Header timestamps, dates and the JSON text of the metadata: the saved value is the list itself.
- PoiSearch.FindFinalizedUsingPoi: takes a table that does not change between pages and a function for the encoding of block hashes.
- DictionaryBuilder.InstructionConditionExact: rests on the assumption above about how the remote service matches accounts and discriminators.
- DictionaryBuilder.NothingLost: is about filters with a field and handlers without a filter, the rest being in the three Fieldless lemmas; leaves out block and custom handlers, whose scheduling is decided elsewhere.
- Block filters by modulo and timestamp, and the validation of project manifests.
- Decoding instruction data and logs with codecs, and the lazy fields of instructions and logs; base58, camel case and the hexadecimal test are parameters.
- RPC client, retries, timeouts and connection pool: only the contract of a header lookup is kept.
- Strings hold Unicode scalar values, so the escaping of lone surrogates does not occur.
