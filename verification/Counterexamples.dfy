/** Inputs on which the code does not do what one would expect of it. Each is an instance of a lemma
    elsewhere that says exactly when it does. */
module Counterexamples {
  import opened Model
  import opened EpochMath
  import opened Tables
  import opened World
  import opened Ingest
  import opened Ledger
  import opened IngestRefinement
  import opened EspressoInput
  import opened EspressoRefinement
  import opened Claims
  import opened Interleaving
  import opened EventRows
  import opened ReaderSteps
  import opened Coverage
  import Sorting
  import EvmAdvanceAbi
  import NamespaceTable
  import NonceService

  // ---- epochs, from a fresh application on ----

  /** An application that has just been registered. */
  function Fresh(app: Address): Db {
    Db(map[app := AppRow(0, 0, 0)], map[], map[], map[], map[], map[], map[])
  }

  lemma FreshIsGood(world: World, app: Address)
    requires world.epochLength(app) >= 1
    ensures AppInvariant(world, Fresh(app), app, 0)
    ensures LedgerOf(Fresh(app), app) == Ledger([], {}, map[])
  {
  }

  /** What there is of an only input at `block`, in ranges with it and without. */
  lemma OnlyInput(events: seq<InputAdded>, app: Address, raw: Calldata, block: nat)
    requires events == [InputAdded(app, 0, raw, block)]
    ensures ChainOrdered(events, app)
    ensures forall from: nat, to: nat :: InputsIn(events, app, from, to) ==
              if from <= block <= to then [Input(app, 0, raw, block, FromInputBox(0))] else []
  {
    assert events[..0] == [];
    forall from: nat, to: nat ensures InputsIn(events, app, from, to) ==
        if from <= block <= to then [Input(app, 0, raw, block, FromInputBox(0))] else []
    {
      assert InputsIn(events[..0], app, from, to) == [];
    }
  }

  predicate OneInputOnly(world: World, app: Address, raw: Calldata, block: nat) {
    world.epochLength(app) == 10 && world.shouldModifyIndex
    && world.inputsAdded == [InputAdded(app, 0, raw, block)]
  }

  /** A batch of a fresh application that has its only input. */
  lemma FirstBatch(world: World, app: Address, raw: Calldata, block: nat, to: nat)
    requires OneInputOnly(world, app, raw, block) && 1 <= block <= to
    requires world.inputStoreFault(app, to).None?
    ensures var after := IngestBatch(world, Fresh(app), app, 1, to);
            && AppInvariant(world, after, app, to) && Dense(after, app)
            && LedgerOf(after, app).epochs == {block / 10}
            && LedgerOf(after, app).nonces == map[]
            && LedgerOf(after, app).log
                 == RowsOf(RenumberAll([Input(app, 0, raw, block, FromInputBox(0))], 0, true), 10)
  {
    hide IngestBatch, AppInvariant, InputsIn, RenumberAll;
    var inputs := [Input(app, 0, raw, block, FromInputBox(0))];
    FreshIsGood(world, app);
    OnlyInput(world.inputsAdded, app, raw, block);
    IngestRefines(world, Fresh(app), app, 0, to);
    InvariantBasics(world, IngestBatch(world, Fresh(app), app, 1, to), app, to);
    assert EpochIndices(inputs, 10) == {block / 10} by {
      assert CalculateEpochIndex(10, inputs[0].block) == block / 10;
    }
  }

  /** The first batch of a fresh application stores the epoch of its only input, open, and a later one
      that reaches the epoch's end closes it. */
  lemma StoredThenClosed(
    world: World, app: Address, raw: Calldata, block: nat, middle: nat, end: nat)
    requires OneInputOnly(world, app, raw, block) && 1 <= block <= middle < end
    requires world.inputStoreFault(app, middle).None? && world.inputStoreFault(app, end).None?
    requires (middle + 1) / 10 == block / 10 && block / 10 * 10 + 9 <= end
    ensures var stored := IngestBatch(world, Fresh(app), app, 1, middle);
            var closed := IngestBatch(world, stored, app, middle + 1, end);
            var key := (app, block / 10);
            && AppInvariant(world, closed, app, end) && Dense(closed, app)
            && key in closed.epochs && closed.epochs[key].status == Closed
            && LedgerOf(closed, app).epochs == {block / 10} && LedgerOf(closed, app).nonces == map[]
            && Counter(closed, app) == 1
  {
    hide IngestBatch, AppInvariant, InputsIn, RenumberAll;
    FirstBatch(world, app, raw, block, middle);
    var stored := IngestBatch(world, Fresh(app), app, 1, middle);
    OnlyInput(world.inputsAdded, app, raw, block);
    OpenWithLastBlock(world, stored, app, middle, block / 10);
    EpochClosesExactly(world, stored, app, middle, end, block / 10);
    IngestRefines(world, stored, app, middle, end);
    InvariantBasics(world, IngestBatch(world, stored, app, middle + 1, end), app, end);
    assert InputsIn(world.inputsAdded, app, middle + 1, end) == [];
    assert EpochIndices([], 10) == {};
    var closed := IngestBatch(world, stored, app, middle + 1, end);
    assert CalculateEpochIndex(10, middle + 1) == block / 10;
    assert closed.epochs[(app, block / 10)].status == Closed;
    assert LedgerOf(closed, app).epochs == {block / 10};
    assert LedgerOf(closed, app).nonces == map[];
    assert |LedgerOf(closed, app).log| == 1;
  }

  lemma OpenWithLastBlock(world: World, db: Db, app: Address, cursor: nat, index: nat)
    requires world.epochLength(app) == 10 && AppInvariant(world, db, app, cursor)
    requires index in EpochsOf(db, app) && index == (cursor + 1) / 10
    ensures (app, index) in db.epochs && db.epochs[(app, index)].status == Open
    ensures db.epochs[(app, index)].lastBlock == index * 10 + 9
  {
  }

  /** With epochs of 10 blocks and an InputBox input at block 5, epoch 0 is closed when block 9 is
      reached, and an Espresso input at block 9 opens it again (see EspressoReopens). */
  lemma ClosedEpochOpensAgain(world: World, app: Address, raw: Calldata, sender: Address, h: nat)
    requires OneInputOnly(world, app, raw, 5)
    requires world.inputStoreFault(app, 5).None? && world.inputStoreFault(app, 9).None?
    requires world.l1FinalizedHeight(h) == 9
    requires world.transactions(h) == [Signed(sender, app, 0, [], 1)]
    requires world.espressoStoreFault(h, 0) == None
    ensures var closed := IngestBatch(world, IngestBatch(world, Fresh(app), app, 1, 5), app, 6, 9);
            var after := DeliverTx(world, closed, app, h, 0);
            && (app, 0) in closed.epochs && closed.epochs[(app, 0)].status == Closed
            && (app, 0) in after.epochs && after.epochs[(app, 0)].status == Open
  {
    hide EspressoRow, EvmAdvanceAbi.Pack, IngestBatch, AppInvariant, DeliverTx;
    StoredThenClosed(world, app, raw, 5, 5, 9);
    var closed := IngestBatch(world, IngestBatch(world, Fresh(app), app, 1, 5), app, 6, 9);
    InvariantBasics(world, closed, app, 9);
    assert Accepts(world, app, LedgerOf(closed, app), h, 0);
    assert 10 !in EpochsOf(closed, app);
    EspressoReopens(world, closed, app, h, 0, (app, 0));
  }

  /** With an InputBox input at block 100, epoch 10 is stored, the blocks 100 .. 109; and then, because
      the epoch length is 10, an Espresso input at block 200 is stored in it too (see
      EspressoInputInWindow). */
  lemma InputOutsideItsEpoch(world: World, app: Address, raw: Calldata, sender: Address, h: nat)
    requires OneInputOnly(world, app, raw, 100)
    requires world.inputStoreFault(app, 105).None? && world.inputStoreFault(app, 200).None?
    requires world.l1FinalizedHeight(h) == 200
    requires world.transactions(h) == [Signed(sender, app, 0, [], 1)]
    requires world.espressoStoreFault(h, 0) == None
    ensures var read :=
              IngestBatch(world, IngestBatch(world, Fresh(app), app, 1, 105), app, 106, 200);
            var after := DeliverTx(world, read, app, h, 0);
            && (app, 1) in after.inputs
            && after.inputs[(app, 1)].block == 200 && after.inputs[(app, 1)].epoch == (app, 10)
            && (app, 10) in after.epochs && after.epochs[(app, 10)].lastBlock == 109
  {
    hide EvmAdvanceAbi.Pack, IngestBatch, AppInvariant, DeliverTx;
    StoredThenClosed(world, app, raw, 100, 105, 200);
    var read := IngestBatch(world, IngestBatch(world, Fresh(app), app, 1, 105), app, 106, 200);
    InvariantBasics(world, read, app, 200);
    assert Accepts(world, app, LedgerOf(read, app), h, 0);
    assert 10 in EpochsOf(read, app);
    EspressoInputInWindow(world, read, app, h, 0);
    DeliverRefines(world, read, app, h, 0);
    EpochEnd(world, DeliverTx(world, read, app, h, 0), app, 200, 10);
  }

  lemma EpochEnd(world: World, db: Db, app: Address, cursor: nat, index: nat)
    requires AppInvariant(world, db, app, cursor) && world.epochLength(app) == 10
    ensures (app, index) in db.epochs ==> db.epochs[(app, index)].lastBlock == index * 10 + 9
  {
  }

  // ---- falling heights ----

  /** The latest Espresso height falls from 5 to 3 and comes back: blocks 4 and 5, covered before, are
      covered again (see RunCoversExactly). */
  lemma FallingLatestCoversAgain(world: World)
    ensures RunBlocks(world, [3, 6], 5) == [4, 5, 6] && RunCursor([3, 6], 5) == 6
  {
    assert [3, 6][..1] == [3] && [3][..0] == [];
    BlocksAre(6, 4);
    BlocksAre(4, 7);
    assert Blocks(4, 7) == [4, 5, 6];
    assert PassCursor(3, 5) == 3 && PassBlocks(world, 3, 5) == [];
    assert RunCursor([3], 5) == 3 && RunBlocks(world, [3], 5) == [];
  }

  /** Finalized heights 5, 3, 5: blocks 4 and 5 are read twice (see L1RangesTile). */
  lemma FallingHeightsReadTwice(world: World)
    requires world.l1FinalizedHeight(1) == 5 && world.l1FinalizedHeight(2) == 3
    requires world.l1FinalizedHeight(3) == 5
    ensures L1Ranges(world, [1, 2, 3], 0) == [(1, 5), (4, 5)]
    ensures !Tiles(L1Ranges(world, [1, 2, 3], 0), 0, 5)
  {
    assert [1, 2, 3] == [1] + [2] + [3];
    RangesOneMore(world, [], 0, 1);
    RangesOneMore(world, [1], 0, 2);
    RangesOneMore(world, [1, 2], 0, 3);
    assert [] + [1] == [1] && [1] + [2] == [1, 2] && [1, 2] + [3] == [1, 2, 3];
    var ranges: seq<Range> := [(1, 5), (4, 5)];
    assert ranges[..1] == [(1, 5)];
  }

  /** So an InputBox event at block 4 is stored twice, with indices 0 and 1 (see StoredOnceExactly). */
  lemma EventStoredTwice(world: World, app: Address, raw: Calldata)
    requires OneInputOnly(world, app, raw, 4)
    requires world.inputStoreFault(app, 5).None?
    ensures var after := IngestBatch(world, IngestBatch(world, Fresh(app), app, 1, 5), app, 4, 5);
            && Counter(after, app) == 2 && (app, 0) in after.inputs && (app, 1) in after.inputs
            && after.inputs[(app, 0)].txId == FromInputBox(0)
            && after.inputs[(app, 1)].txId == FromInputBox(0)
  {
    hide IngestBatch, InputsIn, Renumbered, AppInvariant;
    FirstBatch(world, app, raw, 4, 5);
    OnlyInput(world.inputsAdded, app, raw, 4);
    var once := IngestBatch(world, Fresh(app), app, 1, 5);
    SameHorizon(world, once, app, 5, 3);
    IngestRefines(world, once, app, 3, 5);
    var twice := IngestBatch(world, once, app, 4, 5);
    InvariantBasics(world, twice, app, 5);
    var input := Input(app, 0, raw, 4, FromInputBox(0));
    SameTransaction(input, 0);
    SameTransaction(input, 1);
    assert LedgerOf(twice, app).log[0].txId == FromInputBox(0);
    assert LedgerOf(twice, app).log[1].txId == FromInputBox(0);
  }

  lemma SameTransaction(input: Input, counter: nat)
    ensures Renumbered(input, counter, true).txId == input.txId
  {
  }

  /** A fall below the epoch of the next block: epoch 0 has been closed at block 9, the height falls to
      3, and comes back at any later height. The reader then reads from block 4, finds the epoch of that
      block closed, and drops the batch, new blocks and all, while its cursor goes on. */
  lemma DeepFallDropsBatch(world: World, app: Address, raw: Calldata, later: nat)
    requires OneInputOnly(world, app, raw, 5) && later > 9
    requires world.inputStoreFault(app, 5).None? && world.inputStoreFault(app, 9).None?
    requires world.l1FinalizedHeight(1) == 5 && world.l1FinalizedHeight(2) == 9
    requires world.l1FinalizedHeight(3) == 3 && world.l1FinalizedHeight(4) == later
    ensures L1Ranges(world, [1, 2, 3, 4], 0) == [(1, 5), (6, 9), (4, later)]
    ensures var closed := IngestBatch(world, IngestBatch(world, Fresh(app), app, 1, 5), app, 6, 9);
            IngestBatch(world, closed, app, 4, later) == closed
  {
    hide BatchEntries, AppInvariant, StoreEntries;
    RangesOneMore(world, [], 0, 1);
    RangesOneMore(world, [1], 0, 2);
    RangesOneMore(world, [1, 2], 0, 3);
    RangesOneMore(world, [1, 2, 3], 0, 4);
    assert [] + [1] == [1] && [1] + [2] == [1, 2] && [1, 2] + [3] == [1, 2, 3];
    assert [1, 2, 3] + [4] == [1, 2, 3, 4];
    StoredThenClosed(world, app, raw, 5, 5, 9);
  }

  // ---- claims ----

  /** An input at block 5 and one at block 15. */
  predicate TwoInputsOnly(world: World, app: Address, raw: Calldata) {
    world.epochLength(app) == 10 && world.shouldModifyIndex
    && world.inputsAdded == [InputAdded(app, 0, raw, 5), InputAdded(app, 1, raw, 15)]
    && world.inputStoreFault(app, 9).None? && world.inputStoreFault(app, 20).None?
  }

  /** Blocks 1 .. 9 and then 10 .. 20 have been read. */
  function TwoBatches(world: World, app: Address): Db
    requires world.epochLength(app) >= 1
  {
    IngestBatch(world, IngestBatch(world, Fresh(app), app, 1, 9), app, 10, 20)
  }

  lemma InputOfEach(events: seq<InputAdded>, app: Address, raw: Calldata)
    requires events == [InputAdded(app, 0, raw, 5), InputAdded(app, 1, raw, 15)]
    ensures ChainOrdered(events, app)
    ensures InputsIn(events, app, 1, 9) == [Input(app, 0, raw, 5, FromInputBox(0))]
    ensures InputsIn(events, app, 10, 20) == [Input(app, 1, raw, 15, FromInputBox(1))]
  {
    var e := InputAdded(app, 0, raw, 5);
    assert events[..1] == [e] && [e][..0] == [];
    assert InputsIn([e], app, 1, 9) == [InputOf(e)] && InputsIn([e], app, 10, 20) == [];
  }

  lemma EpochOfOne(input: Input)
    ensures EpochIndices([input], 10) == {input.block / 10}
  {
    assert CalculateEpochIndex(10, [input][0].block) == input.block / 10;
  }

  /** Epochs 0 and 1 have been stored and closed. */
  lemma TwoClosedEpochs(world: World, app: Address, raw: Calldata)
    requires TwoInputsOnly(world, app, raw)
    ensures var read := TwoBatches(world, app);
            && AppInvariant(world, read, app, 20)
            && read.apps == map[app := AppRow(20, 0, 0)]
            && (app, 0) in read.epochs && read.epochs[(app, 0)].status == Closed
            && (app, 1) in read.epochs && read.epochs[(app, 1)].status == Closed
            && EpochsOf(read, app) == {0, 1}
  {
    hide IngestBatch, AppInvariant, InputsIn, RenumberAll, ChainOrdered;
    FreshIsGood(world, app);
    InputOfEach(world.inputsAdded, app, raw);
    EpochOfOne(Input(app, 0, raw, 5, FromInputBox(0)));
    EpochOfOne(Input(app, 1, raw, 15, FromInputBox(1)));
    var first := IngestBatch(world, Fresh(app), app, 1, 9);
    IngestRefines(world, Fresh(app), app, 0, 9);
    NewEpochClosesExactly(world, Fresh(app), app, 0, 9, 0);
    InvariantBasics(world, first, app, 9);
    assert LedgerOf(first, app).epochs == {0};
    assert 1 !in EpochsOf(first, app);
    IngestRefines(world, first, app, 9, 20);
    NewEpochClosesExactly(world, first, app, 9, 20, 1);
    ClosesOnlyWhatHasPassed(world, first, app, 9, 20, (app, 0));
    InvariantBasics(world, TwoBatches(world, app), app, 20);
    assert LedgerOf(TwoBatches(world, app), app).epochs == {0} + {1};
  }

  function Claimed(db: Db, app: Address, index: nat, claim: Hash, status: EpochStatus): Db
    requires (app, index) in db.epochs
  {
    var row := db.epochs[(app, index)].(claimHash := Some(claim), status := status);
    db.(epochs := db.epochs[(app, index) := row])
  }

  /** Two claims are accepted in block 20, the second before the claimer has marked it as submitted. The
      first moves the cursor to block 20, and no later pass looks at the second, though it is submitted
      by then (see CursorSafeExactly). What happens between the reader's steps is what others may do. */
  lemma ClaimInSameBlockIsLost(world: World, app: Address, raw: Calldata, mostRecent: nat)
    requires TwoInputsOnly(world, app, raw) && world.inputBoxDeploymentBlock == 1
    requires forall from: nat, to: nat ::
               world.claimOrder(app, from, to)
                 == [ClaimAcceptance(app, 9, 7, 20), ClaimAcceptance(app, 19, 8, 20)]
    requires !world.claimUpdateFails(app, 20, 0)
    ensures var read := TwoBatches(world, app);
            && (app, 0) in read.epochs && (app, 1) in read.epochs
            && var claimed := Claimed(Claimed(read, app, 0, 7, ClaimSubmitted), app, 1, 8, ClaimComputed);
               var after := CheckClaims(world, claimed, app, 0, 20);
               && Outside(read, claimed, app)
               && app in after.apps && after.apps[app].lastClaimCheckBlock == 20
               && (app, 0) in after.epochs && after.epochs[(app, 0)].status == ClaimAccepted
               && (app, 1) in after.epochs && after.epochs[(app, 1)].status == ClaimComputed
               && var submitted := Claimed(after, app, 1, 8, ClaimSubmitted);
                  && Outside(after, submitted, app)
                  && CheckClaims(world, submitted, app, 20, mostRecent) == submitted
  {
    hide Sorting.SortArrivals, Judge, AcceptClaim, IngestBatch, AppInvariant, TwoBatches, Outside;
    var e, f := ClaimAcceptance(app, 9, 7, 20), ClaimAcceptance(app, 19, 8, 20);
    TwoClosedEpochs(world, app, raw);
    var read := TwoBatches(world, app);
    var claimed := Claimed(Claimed(read, app, 0, 7, ClaimSubmitted), app, 1, 8, ClaimComputed);
    LastBlocks(world, read, app);
    TwoClaims(e, f, app);
    var events := ClaimEvents(world, app, 1, 20);
    ClaimsAreOfApp(world, app, 1, 20);
    assert events == [e, f];
    FirstIsAccepted(world, read, claimed, app, e, f);
    PassStep(world, claimed, app, 20, events, 0);
    PassStep(world, AfterEvent(world, claimed, app, 20, events, 0), app, 20, events, 1);
    assert ClaimStart(world, 0) == 0 && ClaimStart(world, 20) == 20;
    if mostRecent > 20 {
      ClaimsAreOfApp(world, app, 21, mostRecent);
      assert ClaimEvents(world, app, 21, mostRecent) == [];
    }
    var after := CheckClaims(world, claimed, app, 0, 20);
    ClaimingIsOutside(read, app);
    SubmittingIsOutside(after, app);
  }

  lemma LastBlocks(world: World, db: Db, app: Address)
    requires AppInvariant(world, db, app, 20) && world.epochLength(app) == 10
    ensures forall key: EpochKey | key in db.epochs && key.0 == app ::
              db.epochs[key].lastBlock == key.1 * 10 + 9
  {
  }

  lemma ClaimingIsOutside(db: Db, app: Address)
    requires app in db.apps
    requires (app, 0) in db.epochs && db.epochs[(app, 0)].status == Closed
    requires (app, 1) in db.epochs && db.epochs[(app, 1)].status == Closed
    ensures Outside(db, Claimed(Claimed(db, app, 0, 7, ClaimSubmitted), app, 1, 8, ClaimComputed), app)
  {
  }

  lemma SubmittingIsOutside(db: Db, app: Address)
    requires app in db.apps
    requires (app, 1) in db.epochs && db.epochs[(app, 1)].status == ClaimComputed
    ensures Outside(db, Claimed(db, app, 1, 8, ClaimSubmitted), app)
  {
  }

  lemma TwoClaims(e: ClaimAcceptance, f: ClaimAcceptance, app: Address)
    requires e.app == app && f.app == app && e.block == 20 && f.block == 20
    requires e.lastBlock < f.lastBlock
    ensures Sorting.SortArrivals(LastBlockKey, ClaimsIn([e, f], app, 1, 20)) == [e, f]
    ensures forall end: nat :: ClaimsIn([e, f], app, 21, end) == []
    ensures Sorting.SortArrivals(LastBlockKey, []) == []
  {
    assert [e, f][..|[e, f]| - 1] == [e] && [e][..|[e]| - 1] == [];
    assert ClaimsIn([], app, 1, 20) == [] && ClaimsIn([e], app, 1, 20) == [e];
    assert ClaimsIn([e, f], app, 1, 20) == [e] + [f];
    assert Sorting.SortArrivals(LastBlockKey, [e]) == [e];
    assert Sorting.Insert(LastBlockKey, [], f) == [f];
    assert Sorting.Insert(LastBlockKey, [e], f) == [e] + [f];
    forall end: nat ensures ClaimsIn([e, f], app, 21, end) == [] {
      assert ClaimsIn([], app, 21, end) == [] && ClaimsIn([e], app, 21, end) == [];
    }
  }

  lemma FirstIsAccepted(
    world: World, read: Db, db: Db, app: Address, e: ClaimAcceptance, f: ClaimAcceptance)
    requires world.epochLength(app) == 10 && app in read.apps
    requires e == ClaimAcceptance(app, 9, 7, 20) && f == ClaimAcceptance(app, 19, 8, 20)
    requires EpochsOf(read, app) == {0, 1} && (app, 0) in read.epochs && (app, 1) in read.epochs
    requires read.epochs[(app, 0)].lastBlock == 9 && read.epochs[(app, 1)].lastBlock == 19
    requires db == Claimed(Claimed(read, app, 0, 7, ClaimSubmitted), app, 1, 8, ClaimComputed)
    ensures Judge(world, db, e) == AcceptNow && ClaimKey(world, e) == (app, 0)
    ensures var after := AcceptClaim(world, db, e);
            && (app, 0) in after.epochs && after.epochs[(app, 0)].status == ClaimAccepted
            && (app, 1) in after.epochs && after.epochs[(app, 1)].status == ClaimComputed
            && app in after.apps && after.apps[app].lastClaimCheckBlock == 20
            && Judge(world, after, f) == StopHere
  {
    forall key: EpochKey | key in db.epochs && key.0 == app ensures key == (app, 0) || key == (app, 1) {
      assert key.1 in EpochsOf(read, app);
    }
    assert OpenClaimsBefore(db, app, 9) == {};
  }

  // ---- numbers that do not fit ----

  /** From index 2^63 on the rewritten calldata names another index (see
      ModifyIndexKeepsOtherFields). */
  lemma LargeIndexIsNotWritten(f: EvmAdvanceAbi.EvmAdvance)
    requires EvmAdvanceAbi.Fits(f)
    requires |EvmAdvanceAbi.Pack(f)| < EvmAdvanceAbi.Pow256(EvmAdvanceAbi.WORD_BYTES)
    ensures var raw := EvmAdvanceAbi.ModifyIndexInRaw(EvmAdvanceAbi.Pack(f), EvmAdvanceAbi.TWO_TO_63);
            raw.Some? && EvmAdvanceAbi.IndexInRaw(raw.value) != Some(EvmAdvanceAbi.TWO_TO_63)
  {
    EvmAdvanceAbi.PackedCallDecodes(f);
    EvmAdvanceAbi.ModifyIndexKeepsOtherFields(EvmAdvanceAbi.Pack(f), EvmAdvanceAbi.TWO_TO_63);
  }

  /** The entry after the 2^29-th is read as the first (see ExtractInvertsEncoder). */
  lemma LongTableStartsOver()
    ensures var last := NamespaceTable.TWO_TO_29;
            var entries := seq(last + 1, i =>
              NamespaceTable.NsEntry(if i == last then 1 else 0, 0));
            NamespaceTable.Readable(NamespaceTable.EncodeTable(entries))
            && NamespaceTable.NamespacesIn(NamespaceTable.EncodeTable(entries))
                 != NamespaceTable.Namespaces(entries)
  {
    hide NamespaceTable.EncodeTable, NamespaceTable.NamespacesIn, NamespaceTable.Readable,
      NamespaceTable.Namespaces;
    var last := NamespaceTable.TWO_TO_29;
    var entries := seq(last + 1, i => NamespaceTable.NsEntry(if i == last then 1 else 0, 0));
    NamespaceTable.ExtractInvertsEncoder(entries);
    assert entries[last].namespace == 1 && entries[last % NamespaceTable.TWO_TO_29].namespace == 0;
  }

  /** The last block of a window near the top of uint64 wraps around (see WindowFitsUint64). */
  lemma LastBlockWraps()
    ensures LastBlockUint64(TWO_TO_64 - 1, 1) == TWO_TO_64 - 3
    ensures LastBlock(TWO_TO_64 - 1, 1) == 2 * TWO_TO_64 - 3
  {
  }

  /** A sender with one transaction on its way is told that transaction's nonce again after a restart
      of the service (see RestartForgetsPending). */
  lemma NonceAnsweredTwice(sender: Address, app: Address)
    ensures var s := NonceService.State(
              map[], map[app := map[sender := 1]], [NonceService.Sent(sender, app, 0)], map[]);
            && NonceService.InStep(s, sender, app)
            && NonceService.Pending(s.queue, sender, app) == [0]
            && NonceService.Answer(map[], app, sender, NonceIn(s.stored, sender, app)) == 0
  {
    var queue := [NonceService.Sent(sender, app, 0)];
    assert queue[..0] == [];
    assert NonceService.Pending(queue, sender, app) == [0];
  }
}
