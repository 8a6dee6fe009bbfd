# Espresso reader: model and proofs

The Espresso reader follows two chains for a Cartesi application and writes one input log. It reads
InputBox events of the base layer up to the block an Espresso header names as finalized, then the
transactions of the Espresso block, numbers both with one counter, sorts them into epochs, and keeps
track of accepted claims and executed outputs, all in one shared database. This project models that
reader and proves what it keeps.

`dafny verify dfyconfig.toml` checks the whole project.

## How it is laid out

* **The tables.** `Model` and `Tables` are the entities and the database as a value: maps keyed by the
  columns that identify a row, statements that fail on a broken constraint, and the storing
  transaction as a list of statements. `Database` is the handle: a class with the tables in a field,
  and the methods of `internal/repository`.
* **The environment.** `World` is what the reader sees: events, Espresso blocks, finalized heights,
  configuration, and which database statements fail. Everything proved holds for every such world that
  meets the stated conditions.
* **Base-layer inputs.** `EpochMath`, `Sorting` and `EvmAdvanceAbi` are the arithmetic, the sorted
  insertion and the calldata. `EpochCut` is the loop that cuts a batch into epochs, `Ingest` one batch
  as a step on the tables, `IngestRefinement` what such a step keeps, `ManyApps` several applications.
  `StoredCalldata` says what the calldata of stored rows holds, of either kind of input.
* **Claims and outputs.** `Claims` is one pass over acceptance events, `ClaimReruns` passes over ranges
  that overlap, `ClaimCursor` when the claim cursor is safe. `Outputs` is the pass over executions.
  `BaseLayerChecks` says what visited blocks and passes do about both.
* **Espresso inputs.** `EspressoInput`, `EspressoRefinement`. `NamespaceTable` reads the tables in
  headers, and `NamespaceSearch` says which blocks are found by them.
* **The readers.** `EvmReader` and `EspressoReader` are classes with the source's methods and loops,
  epochs shared by pointer included, proved to do to the tables what the step functions say.
* **Runs.** `Ledger` is what the tables record of one application, as a log. `CatchUp` is a run on the
  ledger, `ReaderSteps`, `Windows`, `Coverage`, `RunRefinement` and `LogFacts` bring it down to the
  tables and to the blocks read, and `FirstBlocks` says where a reader without a cursor begins.
  `Interleaving` lets the steps and those of other components come in any order, and `ReaderRuns` shows
  that what the reader does is such a run.
* **All applications.** `Independence` shows that a step for one application neither changes nor looks
  at the part of another, and `Turns` that the loop over the applications serves each as if it were
  alone, so that what the modules before prove of one application holds for every one.
* **Agreement.** `Agreement` compares whole runs with each other: any two readers build the same log.
  `EventRows` is about finalized heights that fall: when an event gets two rows.
* **The nonce service.** `NonceService`: the two handlers as a class, and the protocol between senders,
  service and reader as a state machine.
* **What does not hold.** `Counterexamples`: concrete inputs, each an instance of a lemma that says
  exactly when the property does hold.

The central invariant, `Interleaving.Invariant`, says of one application: the stored input indices are
0 .. n-1 and the counter is n; inputs are numbered by block, and at one block the base layer comes
before Espresso; the base-layer inputs in the log are exactly the InputBox events up to the cursor, each
once; every input row refers to a stored epoch; epochs have their canonical windows, and every one from
that of the next block on is open; every calldata names the index of its row, up to
index 2^63; the claim cursor has passed no acceptance event whose claim is not accepted; the output
cursor has passed no execution, after the deployment block, whose output is not marked.

## What is assumed

Epoch lengths are at least 1. InputBox indices of an application are unique and rise with the block
number, and events carry calldata that decodes and names the event's index. Chain ids are below 2^63,
because the source casts them to int64. The finalized height never falls from one visited block to the
next and does not start below the base-layer cursor. A block without the namespace has no transactions
for it. Claims of an application are accepted after the last block they are about and not before the
InputBox was deployed; none is accepted in the block of the claim for an earlier epoch, or before it; and
the node's answers leave no acceptance out. Base-layer stores succeed, and so do the nonce and counter
updates after a commit; Espresso stores, claim updates and output updates may fail. Where one of these is
not needed the lemma does not ask for it; where it decides the matter the lemma is an equivalence.

## Where code and comments disagree

The model follows the code.

* `internal/evmreader/output.go:30-34`: the comment gives the reason for starting at the deployment
  block itself, but without the minus one that inputs and claims have the pass starts after it.
* `internal/espressoreader/espresso_reader.go:272-283`: the comment speaks of the last open epoch, but
  the lookup passes the epoch length where the epoch index belongs, and no one checks the status.
* `internal/evmreader/evmreader.go:130`: the switch is said to modify the index in the raw data; it
  also overrides the index of the row.

## Model

Method rows are proved against the step function they name; the lemma rows say what these functions
mean.

| member | source | states |
|---|---|---|
| RunRefinement.RunStoresEachInputOnce | internal/espressoreader/espresso_reader.go:47-132 | A whole run of Run for one application, whichever branch each pass takes: the block ranges asked of the InputBox tile the blocks between the old and the new base-layer cursor; the base-layer inputs the log gains are exactly the events of those blocks, each once, in chain order; earlier rows stay; indices, order, horizon and calldata stay right |
| RunRefinement.RunRefines | internal/espressoreader/espresso_reader.go:72-122 | The tables after any number of passes agree with visiting the same blocks on the ledger; each pass resumes at the local base-layer cursor the one before ended with, although it only has the stored row |
| RunRefinement.FirstPassMissesNothing | internal/espressoreader/espresso_reader.go:78-82 | The first pass of a new application begins at the deployment block of the InputBox, and so misses none of its events |
| RunRefinement.PassRefines | internal/espressoreader/espresso_reader.go:78-94 | One pass: the local cursor started from the stored row ends where the next pass will start |
| ReaderRuns.RunKeepsInvariant | internal/espressoreader/espresso_reader.go:72-122 | Any number of passes, with failing Espresso stores, claim updates and output updates, keep the full invariant: indices 0..n-1 and counter n, order, conservation, calldata, horizon, safe claim cursor, complete output cursor |
| ReaderRuns.VisitKeepsInvariant | internal/espressoreader/espresso_reader.go:107-121 | Reading the base layer and then one Espresso block keeps the invariant, also when claims and outputs are checked from an old snapshot of the application |
| Interleaving.InvariantAlwaysHolds | internal/espressoreader/espresso_reader.go:178-347 | In every state of every run of reader steps, interleaved with other components and with the reader's work for other applications, and with other statements failing at every step, the invariant holds |
| Interleaving.StepKeepsInvariant | internal/espressoreader/espresso_reader.go:178-347 | Every single step keeps it: reading inputs, delivering a transaction, checking claims, checking outputs, or a step of someone else that leaves open epochs open and accepted ones alone |
| Interleaving.FreshStateIsGood | internal/espressoreader/espresso_reader.go:78-82 | A newly registered application satisfies the invariant |
| Interleaving.DeliverLeavesCursors | internal/espressoreader/espresso_reader.go:282-329 | An Espresso input that opens an epoch again never takes back an accepted claim the claim cursor has passed |
| Agreement.TwoReadersAgree | internal/espressoreader/espresso_reader.go:47-131 | Two readers of the same chains with databases of their own, which began alike for an application and have covered the same Espresso blocks for it, have the same inputs under the same indices as far as both have got, one being ahead by base-layer inputs at most, and the same nonces, and equal counters and epochs if the last block has the namespace: whatever the heights and branches of their passes, the turns of other applications, and the header answers and claim and output updates that fail |
| Agreement.RunMatchesInSync | internal/espressoreader/espresso_reader.go:72-122 | A run, of any passes taking any branches, leaves what the in-sync loop alone would have over the same blocks, but for base-layer inputs at the end, and all of it if the last block has the namespace |
| Agreement.SomeRefineAll | internal/espressoreader/espresso_reader.go:105-170 | The same for visiting any blocks of a range, in rising order, among which are all those with the namespace |
| CatchUp.BootstrapRefinesInSync | internal/espressoreader/espresso_reader.go:134-176 | For every block range the in-sync loop has what bootstrapping has plus the base-layer inputs since the last block with the namespace; they agree when the last block has it |
| CatchUp.BootstrapLogIsPrefix | internal/espressoreader/espresso_reader.go:107-121 | The log bootstrapping builds is a prefix of the in-sync one, and the missing tail is base-layer inputs only |
| ReaderSteps.BootstrapTablesArePrefix | internal/espressoreader/espresso_reader.go:94-121 | The same on the tables: same rows under the same indices, same nonces, epochs contained, equal when the last block has the namespace |
| ReaderSteps.VisitAllRefines | internal/espressoreader/espresso_reader.go:107-121 | Visiting blocks on the tables is visiting them on the ledger, keeps the invariant, and leaves the stored cursor at the local one |
| ReaderSteps.VisitRefines | internal/espressoreader/espresso_reader.go:178-194 | Same for one block: readL1 and readEspresso together |
| ReaderSteps.ReadL1Refines | internal/espressoreader/espresso_reader.go:178-194 | readL1 ends with exactly the inputs up to the finalized height appended; claims and outputs leave the log alone |
| BaseLayerChecks.ReadL1Checks | internal/espressoreader/espresso_reader.go:178-194 | If the finalized height is above the local cursor, acceptances and executions are checked up to it, whatever became of the batch of inputs, from the block after the cursors of the row the caller has: of the epochs exactly those of the longest good prefix of acceptances become accepted and the claim cursor is at the last event that got one accepted; and every execution has its output marked and the output cursor is at the height, unless an output is missing or different or the update fails. Otherwise nothing happens |
| BaseLayerChecks.VisitChecks | internal/espressoreader/espresso_reader.go:105-121 | The same after the transactions of the block have been delivered too: the outputs stand, and of the epochs at most the one that ends with the finalized block is opened again |
| BaseLayerChecks.PassChecks | internal/espressoreader/espresso_reader.go:94-121 | Over a whole pass of either branch, in which the height rises at all: claims are checked up to where it ends, on the tables as the last batch leaves them; and every execution up to there whose output was in the tables when the pass began is marked, and the output cursor is there, if all of them were and the update does not fail |
| BaseLayerChecks.IdleVisits | internal/espressoreader/espresso_reader.go:179-193 | Blocks over which the height does not rise leave outputs, both check cursors and every epoch that does not end at the height as they were |
| BaseLayerChecks.GoodClaimsStayAccepted | internal/evmreader/claim.go:179-201 | With claims accepted later than their epochs end, the epochs of the good prefix are accepted at the end of the visit or pass |
| BaseLayerChecks.MatchesItsEpoch | internal/evmreader/claim.go:121-176 | An acceptance matches if and only if the application has a stored epoch that ends with the claim's last block, has the claim, and is submitted or accepted |
| LogFacts.RunKeepsLog | internal/espressoreader/espresso_reader.go:107-121 | Over any blocks with heights that never fall the log stays ordered by block with the base layer first, gains exactly the events read, and only grows at its end |
| LogFacts.VisitKeepsLog | internal/espressoreader/espresso_reader.go:178-347 | The same for one block |
| CatchUp.L1AdvanceKeepsOrder | internal/evmreader/input.go:185-202 | Reading base-layer inputs keeps the log ordered: by block, base layer before Espresso at one block |
| CatchUp.DeliverKeepsOrder | internal/espressoreader/espresso_reader.go:306-329 | So does delivering an Espresso input at the finalized height |
| CatchUp.L1AdvanceConserves | internal/evmreader/input.go:149-204 | The InputBox indices in the log are those that were there plus those of the range read |
| RunRefinement.RunNoncesInOrder | internal/repository/base.go:1191-1264 | Over a whole run, base-layer reads in between and blocks visited any number of times, the accepted nonces of a sender count up one by one from the stored one, so none is accepted twice, and the nonce stored at the end is the next |
| CatchUp.NoncesInOrder | internal/espressoreader/espresso_reader.go:225-234 | Over any sequence of deliveries, repeated or reordered, the accepted nonces of a sender are consecutive from the stored one and the stored nonce counts them |
| CatchUp.NoNonceTwice | internal/espressoreader/espresso_reader.go:225-234 | No nonce of a sender is accepted at two points of a run |
| CatchUp.DeliverAllOnTables | internal/espressoreader/espresso_reader.go:335-345 | Those deliveries on the tables store exactly the rows and nonces of the ledger |
| Coverage.L1RangesTile | internal/espressoreader/espresso_reader.go:178-194 | The ranges read cover the blocks from the starting cursor to the last finalized height, each once, if and only if the finalized height never falls |
| EventRows.StoredOnceExactly | internal/espressoreader/espresso_reader.go:178-194 | Where heights fall within the epoch of the next block: no InputBox event has two rows in the tables if and only if none lies in a block that two of the ranges read cover, what had been read before counting as one |
| EventRows.RowsPerEventExactly | internal/espressoreader/espresso_reader.go:178-194 | The same on the log, for heights that fall however far |
| EventRows.VisitAllFollows | internal/espressoreader/espresso_reader.go:178-194 | Over heights that fall no further the tables follow the ledger and keep the invariant |
| Coverage.TilesCoverOnce | internal/espressoreader/espresso_reader.go:184-188 | In such a cover each block lies in one range and ranges do not overlap |
| Coverage.RunCoversExactly | internal/espressoreader/espresso_reader.go:82-122 | Once there is a cursor: every block after it is covered exactly once, in order, up to the final cursor, and that one is not behind, if and only if the latest height never falls from one pass to the next, for heights of at least 1 and 100 below the end of uint64 |
| Coverage.RunCoversOnce | internal/espressoreader/espresso_reader.go:84-93 | From no cursor too, over latest heights that never fall: every block from some first one on, the one after the cursor if there is a cursor, is covered exactly once, and each pass leaves the cursor at its latest height |
| FirstBlocks.RunBeginsAt | internal/espressoreader/espresso_reader.go:84-93 | That first block, for a reader without a cursor: block 1 if the first latest height is at most 100; otherwise the configured block, if that has been reached, or with none configured the first latest height |
| FirstBlocks.VisitsBeginAt | internal/espressoreader/espresso_reader.go:84-121 | From there to the last height every block with the namespace is visited, where header answers are complete or those that fail have none to miss |
| FirstBlocks.InSyncIsCurrent | internal/espressoreader/espresso_reader.go:105-121 | At most 100 blocks behind, every block up to the latest is visited, and the base layer is then read up to the height the latest names |
| FirstBlocks.CatchingUp | internal/espressoreader/espresso_reader.go:84-94 | More than 100 blocks behind, or ahead of the latest height, it is the header answers that decide which blocks are visited |
| Coverage.PassStoresCursor | internal/espressoreader/espresso_reader.go:100-120 | The Espresso cursor in the tables after a pass is the one the coverage results speak of |
| Turns.PassesKeepApp | internal/espressoreader/espresso_db.go:67-130 | After any number of passes the stored Espresso cursor is read back as the cursor of the coverage results, zero before the first |
| Coverage.BatchesPartition | internal/espressoreader/espresso_reader.go:137-172 | Bootstrap batches put together are the blocks in order, all but the last of exactly 100 blocks and that one of at most 100 |
| Coverage.StoppingEarlyLosesBlocks | internal/espressoreader/espresso_reader.go:107-121 | The in-sync loop stores the latest height after its first block: stopped after block h, later passes cover everything if and only if h was the latest block |
| Coverage.BootstrapVisitsExactly | internal/espressoreader/espresso_reader.go:137-172 | Where an answer has the table of every block asked for or cannot be unmarshalled, bootstrapping visits all blocks of the range with the namespace, each once, in rising order, if and only if no answer that cannot be unmarshalled was for a batch with such a block |
| ReaderSteps.BlocksWithNamespaceAre | internal/espressoreader/espresso_reader.go:160-168 | The blocks of a range with the namespace, each once, in rising order |
| NamespaceSearch.TableHasExactly | internal/espressoreader/espresso_reader.go:160-163 | A table of up to 2^29 entries is taken to have the namespace if and only if one of its entries is for it, as a uint32; a longer one, if one of the first 2^29 is |
| NamespaceSearch.BytesOfTwo | internal/espressoreader/espresso_reader.go:444-452 | The bytes of a table of two entries, and when the namespace is found in them: byte order, count and entry size |
| NamespaceSearch.BlocksListedExactly | internal/espressoreader/espresso_reader.go:160-168 | So the blocks of a range with the namespace are those whose headers have such an entry |
| NamespaceSearch.BatchVisitsAre | internal/espressoreader/espresso_reader.go:151-168 | And a batch visits exactly the blocks at the places of the answer that have such an entry, or none if the answer cannot be unmarshalled |
| Turns.TurnsAreIndependent | internal/espressoreader/espresso_reader.go:70-123 | However the turns of the applications follow each other, the part of the tables of each is what its own passes alone would make of it |
| Turns.EveryAppIsServed | internal/espressoreader/espresso_reader.go:70-123 | So each application has the full invariant between its passes, and for each the InputBox is asked for the blocks between its old and its new base-layer cursor, every one exactly once |
| Turns.AskedOnItsOwn | internal/espressoreader/espresso_reader.go:105-121 | For each application the Espresso blocks and the InputBox ranges asked for are those of its own passes |
| Turns.OthersAreOutside | internal/espressoreader/espresso_reader.go:178-347 | Every step the reader takes for another application, its output and claim passes included, is one that may come between any two steps in Interleaving |
| Independence.PassApart | internal/espressoreader/espresso_reader.go:72-122 | A pass for one application leaves rows, epochs, inputs, outputs, nonces, counter and cursors of every other as they were |
| Independence.PassAlike | internal/espressoreader/espresso_reader.go:72-122 | What it does to its own part depends on nothing else in the tables |
| EspressoReader.EspressoReader.Run | internal/espressoreader/espresso_reader.go:56-131 | The loop over iterations and, in each, over the running applications does to the tables what TakeTurns says, although all rows are read at the start of an iteration, and asks for the blocks TurnBlocks and the ranges TurnRanges say, each for its application |
| EspressoReader.EspressoReader.RunOnce | internal/espressoreader/espresso_reader.go:70-123 | One iteration: rows read at its start, then turn after turn |
| EspressoReader.EspressoReader.ProcessApp | internal/espressoreader/espresso_reader.go:72-122 | One application in one iteration: branch, starting block, cursor writes |
| EspressoReader.EspressoReader.Bootstrap | internal/espressoreader/espresso_reader.go:134-176 | Asks for exactly the header batches of Batches, skips those whose answer cannot be unmarshalled, visits the blocks whose table in the answer has the namespace; terminates and no uint64 addition wraps when latest + 100 is a uint64 |
| EspressoReader.EspressoReader.BootstrapBatch | internal/espressoreader/espresso_reader.go:145-170 | One batch: nothing if the answer cannot be unmarshalled, else the blocks found in it, whatever its length |
| EspressoReader.EspressoReader.ProcessInSync | internal/espressoreader/espresso_reader.go:105-121 | Visits every block and sets the Espresso cursor to the latest height after each |
| EspressoReader.EspressoReader.ReadL1 | internal/espressoreader/espresso_reader.go:178-194 | Inputs, claims and outputs of one application up to the finalized height if it is above the cursor; returns that height also if it is below |
| EspressoReader.EspressoReader.ReadEspresso | internal/espressoreader/espresso_reader.go:196-347 | Delivers the transactions of the block in order |
| EspressoReader.EspressoReader.ReadTransaction | internal/espressoreader/espresso_reader.go:206-346 | One transaction: nonce and counter move only after its input was stored |
| EspressoReader.EspressoReader.BuildInput | internal/espressoreader/espresso_reader.go:209-263 | An input is built exactly for a well-signed transaction of the application with the stored nonce and a decodable payload, and packs the current counter as its index |
| EspressoReader.EspressoReader.StoreEspressoInput | internal/espressoreader/espresso_reader.go:273-333 | The input goes to the stored epoch whose index is the epoch length if there is one, else to the epoch of the finalized block; all or nothing |
| EspressoRefinement.DeliverRefines | internal/espressoreader/espresso_reader.go:196-347 | Delivering a transaction keeps the invariant, appends one row if it is accepted, changes nothing at all if not, and leaves other applications alone |
| EspressoRefinement.DeliverAtAnyHeight | internal/espressoreader/espresso_reader.go:196-347 | The log, epoch and nonce part of that holds at any height |
| EspressoRefinement.EspressoInputInWindow | internal/espressoreader/espresso_reader.go:282-299 | An Espresso input lies in the window of the epoch it is stored in if and only if no epoch with the epoch length as its index is stored, or that is the right epoch |
| EspressoRefinement.EspressoReopens | internal/repository/evmreader.go:46-48 | An Espresso store changes an existing epoch if and only if it is the one of the finalized block, not open, and no epoch with the epoch length as index is stored; it is opened again, and the block is its last |
| EspressoRefinement.EspressoAddsEpoch | internal/espressoreader/espresso_reader.go:282-299 | The one epoch an Espresso store can add is that of the finalized block, added if and only if neither it nor one with the epoch length as index is stored, with its window, open, without a claim |
| EspressoRefinement.HorizonMeansLastBlock | internal/espressoreader/espresso_reader.go:288-299 | The epoch of the cursor is open unless the cursor is its last block |
| EspressoInput.HexRoundTrip | internal/espressoreader/espresso_reader.go:236-244 | A payload written as 0x and hexadecimal digits is read back as the same bytes |
| StoredCalldata.PayloadCarried | internal/espressoreader/espresso_reader.go:236-244 | A payload is read as some bytes if and only if it is 0x followed by digits of either case that write them, high digit first, or does not begin with 0x and is these bytes; with 0x and anything else it is refused |
| StoredCalldata.EncodedIsCarried | internal/espressoreader/espresso_reader.go:236-244 | 0x and the hexadecimal encoding of some bytes stands for these bytes |
| StoredCalldata.StoredExactly | internal/espressoreader/espresso_reader.go:206-346 | A transaction gets a row, under the next index, and its sender's nonce goes past its own, if and only if it is well signed, for the application, with the stored nonce or 0, with a payload that can be read, and all four statements go through; any other changes nothing |
| StoredCalldata.EspressoRowSays | internal/espressoreader/espresso_reader.go:236-329 | The row of an Espresso input: the calldata decodes to chain id, application, sender of the transaction, finalized block with its timestamp and prevrandao, the index of the row, and what the payload stands for; the row names the transaction by its signature hash. For chain ids below 2^63 |
| IngestRefinement.IngestRefines | internal/evmreader/input.go:83-252 | Storing a batch keeps the invariant with the cursor at its end, so the next batch is not dropped, and appends exactly the inputs of its blocks, in order, under the next indices |
| IngestRefinement.CurrentEpochOpen | internal/evmreader/input.go:136-144 | The guard against a current epoch that is not open never drops a batch of a reachable state |
| IngestRefinement.ClosesOnlyWhatHasPassed | internal/evmreader/input.go:154-173 | A batch changes a stored epoch only from open to closed, and only if its last block is at or below the end of the batch |
| IngestRefinement.EpochClosesExactly | internal/evmreader/input.go:206-219 | A stored open epoch is closed by a batch if and only if the batch reaches its last block and has an input in it, or is empty and begins in it |
| IngestRefinement.NewEpochClosesExactly | internal/evmreader/input.go:149-219 | An epoch that a batch is the first to have inputs of is stored with its window and without a claim, closed if the batch reaches its last block and open if not |
| IngestRefinement.NoLateInputs | internal/evmreader/input.go:149-204 | Every input a batch stores lies in the window of a stored epoch, after the previous cursor, so none goes to an epoch that ended before |
| IngestRefinement.SplitIsInvisible | internal/evmreader/input.go:83-252 | Reading a range in two parts, split anywhere, leaves the same rows, counter, cursors and epoch windows as reading it at once, statuses aside |
| IngestRefinement.FailedStoreLeavesGap | internal/evmreader/input.go:198-201 | A store that fails leaves the counter ahead of the rows; the indices stay without gaps if and only if the batch was empty |
| ManyApps.IngestAllRefines | internal/evmreader/input.go:121-249 | With several applications in a batch each grows by its own inputs, whatever the order in which they are taken, and the others stay as they were |
| ManyApps.OthersUntouched | internal/evmreader/input.go:121-249 | A step for one application leaves log, epochs, row and invariant of every other as they were, whatever it does to nonces |
| Windows.BatchKeepsWindows | internal/evmreader/input.go:164-171 | Stored epochs have their canonical windows after a batch, whether its store goes through or not |
| Windows.DeliverKeepsWindows | internal/espressoreader/espresso_reader.go:290-299 | And after an Espresso input |
| EpochCut.BatchSegmentation | internal/evmreader/input.go:146-219 | The epochs of a batch have different indices although the map is keyed by pointers, each input lies in the window of its epoch, the lists by rising index put together are the inputs, every epoch but the highest is closed, and that one exactly if its last block has been reached |
| World.InputsInPermuted | internal/evmreader/input.go:304-322 | An application gets the same inputs however the node orders the events |
| EvmReader.EvmReader.ReadAndStoreInputs | internal/evmreader/input.go:83-252 | The method with its map keyed by epoch pointers does to the tables what IngestAll says |
| EvmReader.EvmReader.StoreInputs | internal/evmreader/input.go:121-233 | One application: for every order in which the map is walked the outcome is IngestBatch |
| EvmReader.EvmReader.PlaceAll | internal/evmreader/input.go:149-204 | The loop over the inputs, with the epochs it mutates in place, stands for the cut of the renumbered inputs, and moves the counter once per input |
| EvmReader.EvmReader.Place | internal/evmreader/input.go:152-183 | One input goes to the current epoch, or that one is closed in place and a new one begun |
| EvmReader.EvmReader.CloseLast | internal/evmreader/input.go:206-219 | The last epoch is closed and listed if the batch reaches its end |
| EvmReader.EvmReader.Renumber | internal/evmreader/input.go:185-202 | Index and calldata are overridden with the counter if it differs and overriding is on |
| EvmReader.EvmReader.ReadInputsFromBlockchain | internal/evmreader/input.go:282-324 | Whatever order the node answers in, each application gets its inputs in the order of their InputBox indices |
| EvmReader.EvmReader.CheckForClaimStatus | internal/evmreader/claim.go:18-64 | The method does what CheckClaims says, for one application |
| EvmReader.EvmReader.ReadAndUpdateClaims | internal/evmreader/claim.go:103-204 | Its loop over the events is ClaimPass |
| EvmReader.EvmReader.CheckOneClaim | internal/evmreader/claim.go:107-202 | One event: go on or stop, and accept or not, as Judge says |
| EvmReader.EvmReader.ReadClaimsAcceptance | internal/evmreader/claim.go:208-233 | The events of the answer, each as often as it is in it, sorted by last block, whatever order the node answers in |
| EvmReader.EvmReader.CheckForOutputExecution | internal/evmreader/output.go:16-61 | The method does what CheckOutputs says, for one application |
| EvmReader.EvmReader.ReadAndUpdateOutputs | internal/evmreader/output.go:63-120 | Marks all executed outputs and moves the cursor, or leaves the tables alone |
| Claims.PassAcceptsLongestGoodPrefix | internal/evmreader/claim.go:104-204 | Over any list of events, several in one block or about one epoch included, and whichever updates fail: a pass goes on exactly through the longest prefix of events that each match a submitted or accepted epoch in hash and last block and have every earlier submitted epoch settled by an event before whose update went through; it accepts exactly the epochs of those events whose update goes through, and moves the cursor to the last event that got its epoch accepted |
| Claims.NoOpenClaims | internal/repository/evmreader.go:262-324 | What the query for submitted claims of earlier epochs finds in the middle of a pass: nothing, if and only if each of them is settled by an event before |
| Claims.FirstFailureEndsPass | internal/evmreader/claim.go:193-201 | With rising claims the first update that fails for a submitted epoch ends the pass: what is accepted are the claims of the events before it, whichever later updates would fail |
| ClaimReruns.FailedUpdateStops | internal/evmreader/claim.go:105-120 | After a failed update the next rising event finds the claim still open, and the pass accepts nothing more |
| ClaimReruns.RerunIsIdle | internal/evmreader/claim.go:167-174 | A pass over the same events again changes nothing, whatever updates would fail in it |
| ClaimReruns.RerunAddsNothing | internal/evmreader/claim.go:167-174 | A pass over some events and then over these and more is one pass over all of them, for any events, whichever updates fail for the added ones |
| ClaimReruns.RerunRepairs | internal/evmreader/claim.go:193-201 | Whichever updates failed in the first pass, a second without failures over these events and more leaves the epochs as if there had been only the second |
| ClaimReruns.RerunRepairsCursor | internal/evmreader/claim.go:193-201 | With rising claims so does the whole of the tables, the claim cursor included |
| ClaimCursor.CursorSafeExactly | internal/evmreader/claim.go:72-77 | From all tables that keep the invariant a pass leaves the claim cursor before every event whose claim is not accepted, if and only if an event that can move the cursor is followed, in the order of the pass, only by events of later blocks or the same claim: the exact form of the second disclaimer |
| ClaimCursor.CheckClaimsKeepsCursorSafe | internal/evmreader/claim.go:20-63 | So with claims accepted in block order and complete answers, in any order, the cursor never passes an event whose claim is not accepted, whichever updates fail and however old the snapshot, and never goes back |
| Claims.PassTouchesOnlyClaims | internal/repository/evmreader.go:328-389 | A pass changes nothing but statuses from submitted to accepted and the claim cursor of the application |
| Outputs.PassIsAllOrNothing | internal/evmreader/output.go:63-120 | One missing or different output, or a failed update, and nothing changes; otherwise every output executed in the range is marked with the hash of one of its executions, no other changes, and the cursor is at the end of the range |
| Outputs.CheckOutputsKeepsComplete | internal/evmreader/output.go:26-43 | Every execution after the deployment block and up to the cursor has its output marked; kept by every pass, from any snapshot that is not ahead of the cursor |
| Outputs.MarkedWithItsHash | internal/evmreader/output.go:110-111 | With one execution per output the stored hash is that of the execution |
| Outputs.DeploymentBlockIsSkipped | internal/evmreader/output.go:32-34 | An execution at or before the deployment block is never marked, whatever passes run |
| Database.Database.StoreEpochAndInputsTransaction | internal/repository/evmreader.go:26-149 | All or nothing: on any failing statement or commit the tables are as before, else they are what the statements give in the order the map was walked |
| Database.Database.StoreEpoch | internal/repository/evmreader.go:91-128 | The upsert of an epoch and the inserts of its inputs, up to the first failure |
| Tables.StoreOrderIrrelevant | internal/repository/evmreader.go:89-129 | When the epochs of the map differ in index the outcome is the same for every order of walking it |
| Tables.StoreOnlyAdds | internal/repository/evmreader.go:33-51 | A transaction that goes through changes of existing rows only statuses of epochs and the block cursor, and every new input refers to a stored epoch |
| Database.Database.UpdateEpochs | internal/repository/evmreader.go:328-389 | Statuses and claim cursor, all or nothing |
| Ledger.CounterCountsInputs | internal/repository/base.go:1266-1298 | The counter a caller reads is the number of inputs stored for the application, and the first index that is free |
| Database.Database.UpdateOutputExecutionTransaction | internal/repository/evmreader.go:391-455 | Hashes and output cursor, all or nothing |
| Database.Database.GetEpoch | internal/repository/base.go:592-662 | A fresh copy of the row, or null |
| Database.Database.GetOutput | internal/repository/base.go:890-959 | A fresh copy of the row, transaction hash included, or null |
| Database.Database.UpdateInputIndex | internal/repository/base.go:1300-1333 | The counter goes up by one and nothing else changes |
| Database.Database.UpdateEspressoNonce | internal/repository/base.go:1228-1264 | The nonce goes up by one and nothing else changes |
| Sorting.BinarySearch | internal/evmreader/util.go:36-43 | The first position not below the key |
| Sorting.InsertSorted | internal/evmreader/util.go:36-43 | The item in front of the first element not below it; the slice stays sorted |
| Sorting.SortedPermutation | internal/evmreader/util.go:34-43 | Inserting events in any arrival order gives a sorted permutation |
| Sorting.ArrivalOrderIrrelevant | internal/evmreader/util.go:34-43 | With unique keys the result does not depend on the arrival order |
| EpochMath.WindowOfBlock | internal/evmreader/util.go:13-17 | A block lies in the window of an epoch exactly if that is its epoch index |
| EpochMath.WindowFitsUint64 | internal/evmreader/input.go:167-168 | The uint64 computation of the last block is right if and only if the last block is a uint64 |
| EvmAdvanceAbi.ModifyIndexKeepsOtherFields | internal/evmreader/input.go:345-387 | Rewriting the index never fails on calldata that decodes, leaves every other field, and the index is the one asked for if and only if it is below 2^63 |
| EvmAdvanceAbi.PackedCallDecodes | internal/espressoreader/espresso_reader.go:263 | Packed calldata decodes to the call it was packed from |
| EvmAdvanceAbi.PackedLength | internal/evmreader/abi.json:2-14 | Calldata is the selector, nine words, and the payload padded to whole words |
| StoredCalldata.PackedLayout | internal/evmreader/abi.json:2-14 | Which bytes of the calldata are which argument: selector, big-endian words, addresses in the low 20 bytes, offset, length and payload |
| StoredCalldata.RenumberedSays | internal/evmreader/input.go:185-197 | What becomes of an input read while the counter stands at some value: calldata is kept byte for byte if the index is right already, overriding is off, or it does not decode; otherwise it decodes to the same call with only the index replaced, by the counter below 2^63 |
| StoredCalldata.BaseLayerRowsSay | internal/evmreader/input.go:149-204 | Of the rows a range appends to the log, row base+i is that of the i-th event of the application in the range: its block, its InputBox index as transaction id, its epoch, and its calldata in that sense |
| StoredCalldata.StoredRowsSay | internal/evmreader/input.go:149-204 | The same of the rows in the tables after a batch |
| LogFacts.L1AdvanceRawIndices | internal/evmreader/input.go:185-197 | Every base-layer row below index 2^63 holds calldata that names the row's index |
| LogFacts.DeliverRawIndices | internal/espressoreader/espresso_reader.go:257-263 | So does every Espresso row |
| NamespaceTable.ExtractInvertsEncoder | internal/espressoreader/espresso_reader.go:444-452 | Reading a namespace table inverts the little-endian encoder if and only if the namespaces repeat every 2^29 entries, as they trivially do in any shorter table; no read leaves the table |
| NamespaceTable.ExtractEncoded | internal/espressoreader/espresso_reader.go:447-450 | Entry i of a long table is read as entry i modulo 2^29, because the position is a uint32 |
| NamespaceTable.ExtractNS | internal/espressoreader/espresso_reader.go:444-452 | The loop collects the namespaces of all entries |
| NonceService.NoncesStayInStep | internal/espressoreader/service/espressoreader_service.go:151-275 | At every interleaving of requests, submissions and the reader consuming transactions, application by application: with d stored and p pending the pending nonces are d..d+p-1, and the next transaction for whichever application passes the nonce check |
| NonceService.StartsInStep | internal/espressoreader/service/espressoreader_service.go:130-131 | The protocol starts in step with an empty cache and nothing on its way, whatever nonces are stored |
| NonceService.NextAnswer | internal/espressoreader/service/espressoreader_service.go:171-181 | The next answer is d + p |
| NonceService.AccountKeeps | internal/espressoreader/service/espressoreader_service.go:256-274 | Also if the reader has consumed the transaction before submit reads the database |
| NonceService.NothingFailsTheCheck | internal/espressoreader/espresso_reader.go:225-234 | The first transaction in line for an application has the stored nonce, though earlier ones for others may still be waiting |
| NonceService.PendingWithout | internal/espressoreader/espresso_reader.go:216-220 | Taking it out takes the first nonce off those pending for its sender and nothing off anyone else's |
| NonceService.ConsumeIsDelivery | internal/espressoreader/espresso_reader.go:335-340 | Consuming in the protocol is what delivering does to the stored nonces |
| NonceService.RestartForgetsPending | internal/espressoreader/service/espressoreader_service.go:131 | After a restart the answer is right if and only if nothing of the sender is pending |
| NonceService.NonceService.RequestNonce | internal/espressoreader/service/espressoreader_service.go:171-181 | Answer and cache of the handler |
| NonceService.NonceService.AccountFor | internal/espressoreader/service/espressoreader_service.go:256-274 | Cache after the second half of submit |
| Counterexamples.ClosedEpochOpensAgain | internal/espressoreader/espresso_reader.go:291-299 | From a fresh application: an input at block 5, epoch 0 closed at block 9, and opened again by an Espresso input at block 9 |
| Counterexamples.InputOutsideItsEpoch | internal/espressoreader/espresso_reader.go:282-283 | From a fresh application: after an input at block 100, an Espresso input at block 200 is stored in the epoch of blocks 100 to 109 |
| Counterexamples.FallingHeightsReadTwice | internal/espressoreader/espresso_reader.go:179-193 | Finalized heights 5, 3, 5 make the reader read blocks 4 and 5 twice |
| Counterexamples.EventStoredTwice | internal/evmreader/input.go:185-202 | So one InputBox event at block 4 gets two rows, under indices 0 and 1 |
| Counterexamples.FallingLatestCoversAgain | internal/espressoreader/espresso_reader.go:84-93 | Latest heights 3 and 6 after cursor 5 cover blocks 4 and 5 again |
| Counterexamples.ClaimInSameBlockIsLost | internal/evmreader/claim.go:76-77 | From a fresh application with two closed epochs: two claims accepted in block 20, the second not yet submitted; the cursor moves to block 20 and no later pass looks at the second |
| Counterexamples.DeepFallDropsBatch | internal/evmreader/input.go:136-144 | Finalized heights 5, 9, 3 and then any later one: the epoch of block 4 is closed, so the batch from there on is dropped, new blocks and all |
| Counterexamples.LargeIndexIsNotWritten | internal/evmreader/input.go:377 | Index 2^63 is not the one written |
| Counterexamples.LongTableStartsOver | internal/espressoreader/espresso_reader.go:448 | Entry 2^29 of a table is read as entry 0 |
| Counterexamples.LastBlockWraps | internal/evmreader/input.go:168 | The last block of a window near the top of uint64 wraps around |
| Counterexamples.NonceAnsweredTwice | internal/espressoreader/service/espressoreader_service.go:131 | A restart of the service makes it answer a pending nonce again |

## Left out

- Row ids: rows are keyed by the columns of their UNIQUE constraints, and an input refers to its epoch
  by application and index. The `output` table has no such constraint: that index and application
  identify an output is assumed. Columns the reader never looks at (input completion status, output
  siblings, machine hashes, transaction hash of epochs) are not modelled.
- HTTP, websocket, Ethereum and Postgres clients, JSON, base64, EIP-712 hashing and signature recovery:
  a transaction comes as malformed or as signed by a sender with nonce, application, payload and
  signature hash.
- Failing reads: database queries, InputBox, consensus and application queries, header and transaction
  fetches, prevrandao and epoch-length calls succeed. A failed read of the InputBox is ignored by the
  source while the local cursor moves on, so inputs can be missed then.
- `checkForNewInputs`, `indexApps`, `watchForNewBlocks` and the grouping of applications by cursor or
  consensus: `readL1` always passes one application. `ReadAndStoreInputs` is modelled for several.
- EspressoReader.EspressoReader.Run: the applications of an iteration are registered ones without
  repetition, and while it runs no one else writes; steps of others are in `Interleaving`. Latest heights
  are 100 below the end of uint64.
- EspressoReader.EspressoReader.Bootstrap: asks that every namespace table in an answer holds as many
  bytes as its count needs, because the source panics otherwise.
- Interleaving.InvariantAlwaysHolds: base-layer stores and the updates after a commit are assumed to
  succeed, because the counter moves outside the transaction; IngestRefinement.FailedStoreLeavesGap
  says what a failed store leaves.
- Claims.FirstFailureEndsPass: for claims with rising last blocks; an event for the same claim again
  may make up for the failed update, which Claims.PassAcceptsLongestGoodPrefix covers.
- In runs of passes, whether a given claim or output update fails depends on application, height and
  position only, so two passes to one height fail alike; in `Interleaving` every step has faults of its
  own.
- NonceService.NoncesStayInStep: senders ask before they submit, submit what they were told, one request
  at a time, only through this service, with delivery in order and stores that succeed; the handlers'
  accesses to the cache are atomic steps.
- Outputs are read in the order of the environment's events; the source does not sort them either.
- Advancer, validator and claimer are steps that leave open epochs open and accepted ones alone; any
  other epoch they may give any status and claim.
- Timing, sleeps, logging, context cancellation, configuration and the schema migration runner.
