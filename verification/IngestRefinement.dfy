/** Storing a batch of base-layer inputs keeps the invariant and appends exactly those inputs. */
module IngestRefinement {
  import opened Model
  import opened EpochMath
  import opened EpochCut
  import opened Tables
  import opened World
  import opened Ingest
  import opened Ledger

  /** What is assumed of the environment for an application. */
  ghost predicate GoodWorld(world: World, app: Address) {
    && world.epochLength(app) >= 1
    && world.shouldModifyIndex
    && ChainOrdered(world.inputsAdded, app)
  }

  function Batch(world: World, db: Db, app: Address, startBlock: nat, endBlock: nat): seq<Input> {
    RenumberAll(InputsIn(world.inputsAdded, app, startBlock, endBlock), Counter(db, app),
                world.shouldModifyIndex)
  }

  lemma BatchFacts(world: World, db: Db, app: Address, startBlock: nat, endBlock: nat)
    requires GoodWorld(world, app)
    ensures var inputs := InputsIn(world.inputsAdded, app, startBlock, endBlock);
            var batch := Batch(world, db, app, startBlock, endBlock);
            && |batch| == |inputs|
            && (forall i | 0 <= i < |batch| :: batch[i].block == inputs[i].block)
            && NumberedFrom(batch, app, Counter(db, app))
            && BlocksRise(batch) && BlocksWithin(batch, startBlock, endBlock)
  {
    InputsInMembers(world.inputsAdded, app, startBlock, endBlock);
    InputsInRise(world.inputsAdded, app, startBlock, endBlock);
  }

  /** The horizon is what lets the batch in: the epoch it starts in is open if it is stored. */
  lemma CurrentEpochOpen(world: World, db: Db, app: Address, cursor: nat)
    requires AppInvariant(world, db, app, cursor)
    ensures CurrentEpochIsOpen(world, db, app, cursor + 1)
    ensures StoredFits(app, world.epochLength(app),
                       StoredEpoch(db, app, CalculateEpochIndex(world.epochLength(app), cursor + 1)),
                       cursor + 1)
  {
  }

  /** The tables after a batch that was stored. */
  function Ingested(
    db: Db, app: Address, entries: seq<Entry>, batch: seq<Input>, epochLength: nat, endBlock: nat): Db
    requires epochLength >= 1 && app in db.apps
  {
    Db(db.apps[app := db.apps[app].(lastProcessedBlock := endBlock)],
       PutEpochs(db, entries).epochs,
       PutInputs(db.inputs, batch, epochLength),
       db.outputs,
       db.nonces,
       AdvanceCounter(db, app, |batch|).counters,
       db.espressoBlocks)
  }

  predicate GoodEntries(
    app: Address, epochLength: nat, entries: seq<Entry>, batch: seq<Input>, from: nat, to: nat)
    requires epochLength >= 1
  {
    && Segmented(app, epochLength, entries)
    && AllInputs(entries) == batch
    && IndexBetween(entries, CalculateEpochIndex(epochLength, from + 1),
                    CalculateEpochIndex(epochLength, to))
    && AllButLastClosed(entries)
    && LastClosedIffPassed(entries, to)
  }

  lemma BatchEntriesGood(world: World, db: Db, app: Address, from: nat, to: nat)
    requires GoodWorld(world, app) && AppInvariant(world, db, app, from) && from < to
    ensures GoodEntries(app, world.epochLength(app), BatchEntries(world, db, app, from + 1, to),
                        Batch(world, db, app, from + 1, to), from, to)
  {
    var epochLength := world.epochLength(app);
    CurrentEpochOpen(world, db, app, from);
    BatchFacts(world, db, app, from + 1, to);
    var stored := StoredEpoch(db, app, CalculateEpochIndex(epochLength, from + 1));
    BatchSegmentation(app, epochLength, stored, Batch(world, db, app, from + 1, to), from + 1, to);
  }

  /** Storing such a batch does not fail, and this is what it leaves. */
  lemma StoreGoodEntries(
    db: Db, app: Address, epochLength: nat, entries: seq<Entry>, batch: seq<Input>, from: nat, to: nat)
    requires epochLength >= 1 && app in db.apps && Dense(db, app)
    requires GoodEntries(app, epochLength, entries, batch, from, to)
    requires NumberedFrom(batch, app, Counter(db, app))
    ensures StoreEntries(AdvanceCounter(db, app, |batch|), entries, to, app)
         == Some(Ingested(db, app, entries, batch, epochLength, to))
  {
    var counted := AdvanceCounter(db, app, |batch|);
    RunBatch(counted, entries, epochLength, app, Counter(db, app));
    IngestedFromRun(db, counted, app, entries, batch, epochLength, to);
  }

  lemma {:induction false} IngestedFromRun(
    db: Db, counted: Db, app: Address, entries: seq<Entry>, batch: seq<Input>, epochLength: nat,
    to: nat)
    requires epochLength >= 1 && app in db.apps
    requires counted == AdvanceCounter(db, app, |batch|)
    ensures var run := PutEpochs(counted, entries)
                         .(inputs := PutInputs(counted.inputs, batch, epochLength));
            SetProcessedBlock(run, app, to) == Ingested(db, app, entries, batch, epochLength, to)
  {
    PutEpochsFrame(counted, entries);
    PutEpochsOnly(counted, db, entries);
  }

  lemma {:induction false} PutEpochsOnly(a: Db, b: Db, entries: seq<Entry>)
    requires a.epochs == b.epochs
    ensures PutEpochs(a, entries).epochs == PutEpochs(b, entries).epochs
  {
    if entries != [] {
      PutEpochsOnly(a, b, entries[..|entries| - 1]);
    }
  }

  lemma IngestClosedForm(world: World, db: Db, app: Address, from: nat, to: nat)
    requires GoodWorld(world, app) && AppInvariant(world, db, app, from) && from < to
    requires world.inputStoreFault(app, to).None?
    ensures IngestBatch(world, db, app, from + 1, to)
         == Ingested(db, app, BatchEntries(world, db, app, from + 1, to),
                     Batch(world, db, app, from + 1, to), world.epochLength(app), to)
  {
    CurrentEpochOpen(world, db, app, from);
    BatchFacts(world, db, app, from + 1, to);
    BatchEntriesGood(world, db, app, from, to);
    StoreGoodEntries(db, app, world.epochLength(app), BatchEntries(world, db, app, from + 1, to),
                     Batch(world, db, app, from + 1, to), from, to);
  }

  /** Fresh rows at the end keep the log dense and are what it grows by. */
  lemma RowsAdded(db: Db, r: Db, app: Address, batch: seq<Input>, epochLength: nat)
    requires epochLength >= 1 && Dense(db, app)
    requires NumberedFrom(batch, app, Counter(db, app))
    requires r.inputs == PutInputs(db.inputs, batch, epochLength)
    requires Counter(r, app) == Counter(db, app) + |batch|
    ensures Dense(r, app)
    ensures LedgerOf(r, app).log == LedgerOf(db, app).log + RowsOf(batch, epochLength)
  {
    StaysDense(db, r, app, batch, epochLength);
    var log, rows := LedgerOf(db, app).log, RowsOf(batch, epochLength);
    forall i: nat | i < |log| + |rows| ensures LedgerOf(r, app).log[i] == (log + rows)[i] {
      RowAdded(db, r, app, batch, epochLength, i);
    }
  }

  lemma StaysDense(db: Db, r: Db, app: Address, batch: seq<Input>, epochLength: nat)
    requires epochLength >= 1 && Dense(db, app)
    requires NumberedFrom(batch, app, Counter(db, app))
    requires r.inputs == PutInputs(db.inputs, batch, epochLength)
    requires Counter(r, app) == Counter(db, app) + |batch|
    ensures Dense(r, app)
  {
    PutInputsRows(db.inputs, batch, epochLength, app, Counter(db, app));
  }

  lemma RowAdded(db: Db, r: Db, app: Address, batch: seq<Input>, epochLength: nat, i: nat)
    requires epochLength >= 1 && i < Counter(db, app) + |batch|
    requires NumberedFrom(batch, app, Counter(db, app))
    requires Dense(db, app)
    requires r.inputs == PutInputs(db.inputs, batch, epochLength)
    ensures (app, i) in r.inputs
    ensures r.inputs[(app, i)] ==
      if i < Counter(db, app) then db.inputs[(app, i)]
      else RowOf(batch[i - Counter(db, app)], epochLength)
  {
    var n := Counter(db, app);
    PutInputsRows(db.inputs, batch, epochLength, app, n);
    if i >= n {
      assert i == n + (i - n);
    }
  }

  /** The rows a batch writes: canonical windows, and open if they end after the batch. */
  lemma {:induction false} IngestedEntryRow(
    world: World, db: Db, app: Address, entries: seq<Entry>, k: nat, from: nat, to: nat)
    requires AppInvariant(world, db, app, from) && k < |entries|
    requires Segmented(app, world.epochLength(app), entries)
    requires IndexBetween(entries, 0, CalculateEpochIndex(world.epochLength(app), to))
    requires AllButLastClosed(entries) && LastClosedIffPassed(entries, to)
    ensures var key := KeyOf(entries[k].epoch);
            var after := PutEpochs(db, entries);
            && key in after.epochs
            && after.epochs[key].firstBlock == FirstBlock(world.epochLength(app), key.1)
            && after.epochs[key].lastBlock == LastBlock(world.epochLength(app), key.1)
            && after.epochs[key].status == entries[k].epoch.status
            && (key.1 >= CalculateEpochIndex(world.epochLength(app), to + 1) ==>
                  after.epochs[key].status == Open)
  {
    var epochLength := world.epochLength(app);
    var e := entries[k].epoch;
    PutEpochsRow(db, entries, k);
    EpochIndexMonotone(epochLength, to, to + 1);
    WindowEndsBefore(epochLength, e.index, to + 1);
    if e.index >= CalculateEpochIndex(epochLength, to + 1) {
      var n := |entries| - 1;
      assert entries[n].epoch.index <= CalculateEpochIndex(epochLength, to);
      assert k == n;
    }
  }

  lemma IngestedEpochRows(
    world: World, db: Db, app: Address, entries: seq<Entry>, from: nat, to: nat)
    requires AppInvariant(world, db, app, from) && from < to
    requires Segmented(app, world.epochLength(app), entries)
    requires IndexBetween(entries, 0, CalculateEpochIndex(world.epochLength(app), to))
    requires AllButLastClosed(entries) && LastClosedIffPassed(entries, to)
    ensures CanonicalWindows(world, PutEpochs(db, entries), app)
    ensures Horizon(world, PutEpochs(db, entries), app, to)
  {
    var after := PutEpochs(db, entries);
    forall key | key in after.epochs && key.0 == app
      ensures after.epochs[key].firstBlock == FirstBlock(world.epochLength(app), key.1)
      ensures after.epochs[key].lastBlock == LastBlock(world.epochLength(app), key.1)
      ensures key.1 >= CalculateEpochIndex(world.epochLength(app), to + 1) ==>
                after.epochs[key].status == Open
    {
      IngestedRow(world, db, app, entries, key, from, to);
    }
  }

  lemma {:induction false} IngestedRow(
    world: World, db: Db, app: Address, entries: seq<Entry>, key: EpochKey, from: nat, to: nat)
    requires AppInvariant(world, db, app, from) && from < to
    requires Segmented(app, world.epochLength(app), entries)
    requires IndexBetween(entries, 0, CalculateEpochIndex(world.epochLength(app), to))
    requires AllButLastClosed(entries) && LastClosedIffPassed(entries, to)
    requires key in PutEpochs(db, entries).epochs && key.0 == app
    ensures var row := PutEpochs(db, entries).epochs[key];
            && row.firstBlock == FirstBlock(world.epochLength(app), key.1)
            && row.lastBlock == LastBlock(world.epochLength(app), key.1)
            && (key.1 >= CalculateEpochIndex(world.epochLength(app), to + 1) ==> row.status == Open)
  {
    hide Segmented, IndexBetween, AllButLastClosed, LastClosedIffPassed, PutEpochs, Dense, Linked;
    PutEpochsKeys(db, entries);
    EpochIndexMonotone(world.epochLength(app), from + 1, to + 1);
    if key in EntryKeys(entries) {
      var k :| 0 <= k < |entries| && key == KeyOf(entries[k].epoch);
      IngestedEntryRow(world, db, app, entries, k, from, to);
    }
  }

  lemma {:induction false} IngestedEpochSet(
    db: Db, app: Address, entries: seq<Entry>, batch: seq<Input>, epochLength: nat,
    stored: Option<EpochData>, endBlock: nat)
    requires epochLength >= 1
    requires entries == CutBatch(app, epochLength, stored, batch, endBlock)
    requires Segmented(app, epochLength, entries) && AllInputs(entries) == batch
    requires stored.Some? ==> (app, stored.value.index) in db.epochs
    ensures EpochsOf(PutEpochs(db, entries), app)
         == EpochsOf(db, app) + EpochIndices(batch, epochLength)
  {
    hide CutBatch, PutEpochs, EpochIndices, EntryKeys, Segmented, AllInputs;
    PutEpochsKeys(db, entries);
    ListedIndices(app, epochLength, stored, batch, endBlock);
    var after := PutEpochs(db, entries);
    forall x: nat ensures x in EpochsOf(after, app) <==>
        x in EpochsOf(db, app) + EpochIndices(batch, epochLength) {
      assert x in EpochsOf(after, app) <==> (app, x) in after.epochs;
      assert x in EpochsOf(db, app) <==> (app, x) in db.epochs;
      EpochAfterBatch(db, app, epochLength, entries, x, stored);
    }
  }

  lemma EpochAfterBatch(
    db: Db, app: Address, epochLength: nat, entries: seq<Entry>, x: nat, stored: Option<EpochData>)
    requires epochLength >= 1 && Segmented(app, epochLength, entries)
    requires stored.Some? ==> (app, stored.value.index) in db.epochs
    requires forall k | 0 <= k < |entries| ::
               || (stored.Some? && entries[k].epoch.index == stored.value.index)
               || entries[k].epoch.index in EpochIndices(AllInputs(entries), epochLength)
    ensures (app, x) in db.epochs.Keys + EntryKeys(entries)
       <==> (app, x) in db.epochs || x in EpochIndices(AllInputs(entries), epochLength)
  {
    BatchEpochListed(app, epochLength, entries, x);
    ListedEpochKey(app, epochLength, entries, x);
  }

  lemma ListedEpochKey(app: Address, epochLength: nat, entries: seq<Entry>, x: nat)
    requires epochLength >= 1 && Segmented(app, epochLength, entries)
    ensures (app, x) in EntryKeys(entries) <==>
              exists k :: 0 <= k < |entries| && entries[k].epoch.index == x
  {
    if k :| 0 <= k < |entries| && entries[k].epoch.index == x {
      assert KeyOf(entries[k].epoch) == (app, x);
    }
  }

  lemma BatchEpochListed(app: Address, epochLength: nat, entries: seq<Entry>, x: nat)
    requires epochLength >= 1 && Segmented(app, epochLength, entries)
    ensures x in EpochIndices(AllInputs(entries), epochLength) ==>
              exists k :: 0 <= k < |entries| && entries[k].epoch.index == x
  {
    var batch := AllInputs(entries);
    if i :| 0 <= i < |batch| && x == CalculateEpochIndex(epochLength, batch[i].block) {
      var k := EntryOfInput(app, epochLength, entries, i);
    }
  }

  /** Every listed epoch is the stored one or has an input. */
  lemma ListedIndices(
    app: Address, epochLength: nat, stored: Option<EpochData>, inputs: seq<Input>, endBlock: nat)
    requires epochLength >= 1
    ensures var entries := CutBatch(app, epochLength, stored, inputs, endBlock);
            forall k | 0 <= k < |entries| ::
              || (stored.Some? && entries[k].epoch.index == stored.value.index)
              || entries[k].epoch.index in EpochIndices(inputs, epochLength)
  {
    hide CutInputs, EpochIndices;
    var c := CutInputs(app, epochLength, stored, inputs);
    CutIndices(app, epochLength, stored, inputs);
  }

  lemma {:induction false} CutIndices(
    app: Address, epochLength: nat, stored: Option<EpochData>, inputs: seq<Input>)
    requires epochLength >= 1
    ensures var c := CutInputs(app, epochLength, stored, inputs);
            && (forall k | 0 <= k < |c.sealed| ::
                  c.sealed[k].epoch.index in EpochIndices(inputs, epochLength))
            && (if c.listed then c.current.Some?
                  && c.current.value.index in EpochIndices(inputs, epochLength)
                else c.current == stored && inputs == [])
  {
    if inputs != [] {
      var n := |inputs| - 1;
      CutIndices(app, epochLength, stored, inputs[..n]);
      assert inputs == inputs[..n] + [inputs[n]];
      EpochIndicesAppend(inputs[..n], [inputs[n]], epochLength);
      assert [inputs[n]][0] == inputs[n];
      assert CalculateEpochIndex(epochLength, inputs[n].block)
          in EpochIndices([inputs[n]], epochLength);
    }
  }

  lemma {:induction false} EntryOfInput(
    app: Address, epochLength: nat, entries: seq<Entry>, i: nat) returns (k: nat)
    requires epochLength >= 1 && Segmented(app, epochLength, entries)
    requires i < |AllInputs(entries)|
    ensures k < |entries|
    ensures entries[k].epoch.index
         == CalculateEpochIndex(epochLength, AllInputs(entries)[i].block)
  {
    var n := |entries| - 1;
    var before := AllInputs(entries[..n]);
    if i < |before| {
      k := EntryOfInput(app, epochLength, entries[..n], i);
    } else {
      k := n;
      assert AllInputs(entries)[i] == entries[n].inputs[i - |before|];
      assert InEpoch(epochLength, entries[n].inputs, entries[n].epoch.index);
    }
  }

  lemma RenumberingKeepsEpochs(inputs: seq<Input>, base: nat, override: bool, epochLength: nat)
    requires epochLength >= 1
    ensures EpochIndices(RenumberAll(inputs, base, override), epochLength)
         == EpochIndices(inputs, epochLength)
  {
    var r := RenumberAll(inputs, base, override);
    assert forall i | 0 <= i < |inputs| :: r[i].block == inputs[i].block;
    forall x ensures x in EpochIndices(r, epochLength) <==> x in EpochIndices(inputs, epochLength) {
      if x in EpochIndices(inputs, epochLength) {
        var i :| 0 <= i < |inputs| && x == CalculateEpochIndex(epochLength, inputs[i].block);
        assert r[i].block == inputs[i].block;
      }
    }
  }

  lemma BatchLinked(
    db: Db, app: Address, batch: seq<Input>, epochLength: nat, epochs: map<EpochKey, EpochRow>,
    inputs: map<InputKey, InputRow>, base: nat)
    requires epochLength >= 1 && Linked(db, app)
    requires NumberedFrom(batch, app, base)
    requires inputs == PutInputs(db.inputs, batch, epochLength)
    requires forall key | key in db.epochs :: key in epochs
    requires forall x | x in EpochIndices(batch, epochLength) :: (app, x) in epochs
    ensures Linked(db.(epochs := epochs, inputs := inputs), app)
  {
    PutInputsRows(db.inputs, batch, epochLength, app, base);
    forall key | key in inputs && key.0 == app
      ensures inputs[key].epoch in epochs && inputs[key].epoch.0 == app
    {
      if base <= key.1 < base + |batch| {
        var i := key.1 - base;
        assert key == (app, base + i) && inputs[key] == RowOf(batch[i], epochLength);
        assert CalculateEpochIndex(epochLength, batch[i].block) in EpochIndices(batch, epochLength);
      }
    }
  }

  /** The step that stores a batch of base-layer inputs: it keeps the invariant with the cursor at
      the end of the batch, so the next batch is let in again; the log grows by exactly the inputs of
      the batch, in order; and nothing else of the log, of the nonces or of other applications
      changes. */
  lemma IngestRefines(world: World, db: Db, app: Address, from: nat, to: nat)
    requires GoodWorld(world, app) && AppInvariant(world, db, app, from) && from < to
    requires world.inputStoreFault(app, to).None?
    ensures var after := IngestBatch(world, db, app, from + 1, to);
            && AppInvariant(world, after, app, to)
            && LedgerOf(after, app) == L1Advance(world, app, LedgerOf(db, app), from, to)
            && after.apps == db.apps[app := db.apps[app].(lastProcessedBlock := to)]
            && after.outputs == db.outputs && after.espressoBlocks == db.espressoBlocks
            && SameElsewhere(db, after, app)
  {
    var epochLength := world.epochLength(app);
    var batch := Batch(world, db, app, from + 1, to);
    var entries := BatchEntries(world, db, app, from + 1, to);
    var after := IngestBatch(world, db, app, from + 1, to);
    IngestClosedForm(world, db, app, from, to);
    BatchFacts(world, db, app, from + 1, to);
    BatchEntriesGood(world, db, app, from, to);
    RowsAdded(db, after, app, batch, epochLength);
    IngestEpochsRefine(world, db, app, from, to);
    IngestedElsewhere(world, db, app, entries, batch, to);
  }

  lemma IngestEpochsRefine(world: World, db: Db, app: Address, from: nat, to: nat)
    requires GoodWorld(world, app) && AppInvariant(world, db, app, from) && from < to
    requires IngestBatch(world, db, app, from + 1, to)
          == Ingested(db, app, BatchEntries(world, db, app, from + 1, to),
                      Batch(world, db, app, from + 1, to), world.epochLength(app), to)
    ensures var after := IngestBatch(world, db, app, from + 1, to);
            && CanonicalWindows(world, after, app) && Horizon(world, after, app, to)
            && EpochsOf(after, app) == EpochsOf(db, app)
                 + EpochIndices(InputsIn(world.inputsAdded, app, from + 1, to), world.epochLength(app))
            && Linked(after, app)
  {
    var epochLength := world.epochLength(app);
    var batch := Batch(world, db, app, from + 1, to);
    var entries := BatchEntries(world, db, app, from + 1, to);
    var after := IngestBatch(world, db, app, from + 1, to);
    BatchFacts(world, db, app, from + 1, to);
    BatchEntriesGood(world, db, app, from, to);
    IngestedEpochRows(world, db, app, entries, from, to);
    CurrentEpochOpen(world, db, app, from);
    IngestedEpochSet(db, app, entries, batch, epochLength,
                     StoredEpoch(db, app, CalculateEpochIndex(epochLength, from + 1)), to);
    assert EpochsOf(after, app) == EpochsOf(PutEpochs(db, entries), app);
    RenumberingKeepsEpochs(InputsIn(world.inputsAdded, app, from + 1, to), Counter(db, app),
                           world.shouldModifyIndex, epochLength);
    PutEpochsKeys(db, entries);
    forall x | x in EpochIndices(batch, epochLength) ensures (app, x) in after.epochs {
      assert x in EpochsOf(after, app);
    }
    BatchLinked(db, app, batch, epochLength, after.epochs, after.inputs, Counter(db, app));
  }

  lemma IngestedElsewhere(
    world: World, db: Db, app: Address, entries: seq<Entry>, batch: seq<Input>, to: nat)
    requires GoodWorld(world, app) && app in db.apps
    requires Segmented(app, world.epochLength(app), entries)
    requires NumberedFrom(batch, app, Counter(db, app))
    ensures SameElsewhere(db, Ingested(db, app, entries, batch, world.epochLength(app), to), app)
  {
    var after := Ingested(db, app, entries, batch, world.epochLength(app), to);
    assert SameEpochsElsewhere(db, after, app) by {
      PutEpochsKeys(db, entries);
      assert forall key | key in EntryKeys(entries) :: key.0 == app;
    }
    assert SameInputsElsewhere(db, after, app) by {
      PutInputsRows(db.inputs, batch, world.epochLength(app), app, Counter(db, app));
    }
  }

  /** Closing and sealing. A batch changes the status of a stored epoch only from Open, and only to
      Closed, and only if the epoch's last block is at or below the end of the batch; and no later
      batch puts an input into an epoch that ended by then. */
  lemma ClosesOnlyWhatHasPassed(world: World, db: Db, app: Address, from: nat, to: nat, key: EpochKey)
    requires GoodWorld(world, app) && AppInvariant(world, db, app, from) && from < to
    requires world.inputStoreFault(app, to).None?
    requires key in db.epochs
    ensures var after := IngestBatch(world, db, app, from + 1, to);
            && key in after.epochs
            && after.epochs[key] == db.epochs[key].(status := after.epochs[key].status)
            && (after.epochs[key].status != db.epochs[key].status ==>
                  && key.0 == app
                  && db.epochs[key].status == Open && after.epochs[key].status == Closed
                  && after.epochs[key].lastBlock <= to)
  {
    hide IngestBatch, BatchEntries, GoodEntries, PutEpochs;
    InvariantBasics(world, db, app, from);
    IngestClosedForm(world, db, app, from, to);
    BatchEntriesGood(world, db, app, from, to);
    RowAfterBatch(world, db, app, BatchEntries(world, db, app, from + 1, to),
                  Batch(world, db, app, from + 1, to), from, to, key);
  }

  lemma RowAfterBatch(
    world: World, db: Db, app: Address, entries: seq<Entry>, batch: seq<Input>, from: nat, to: nat,
    key: EpochKey)
    requires GoodWorld(world, app) && AppInvariant(world, db, app, from) && from < to
    requires GoodEntries(app, world.epochLength(app), entries, batch, from, to)
    requires key in db.epochs
    ensures var after := PutEpochs(db, entries).epochs;
            && key in after
            && after[key] == db.epochs[key].(status := after[key].status)
            && (after[key].status != db.epochs[key].status ==>
                  && key.0 == app && db.epochs[key].status == Open && after[key].status == Closed
                  && after[key].lastBlock <= to)
  {
    PutEpochsKeys(db, entries);
    if key in EntryKeys(entries) {
      var k :| 0 <= k < |entries| && key == KeyOf(entries[k].epoch);
      StoredEntryIsOpen(world, db, app, entries, batch, from, to, k);
      PutEpochsRow(db, entries, k);
      EntryHasPassed(world, app, entries, k, from, to);
    }
  }

  /** A stored epoch that a batch writes to was open. */
  lemma StoredEntryIsOpen(
    world: World, db: Db, app: Address, entries: seq<Entry>, batch: seq<Input>, from: nat, to: nat,
    k: nat)
    requires AppInvariant(world, db, app, from) && k < |entries|
    requires GoodEntries(app, world.epochLength(app), entries, batch, from, to)
    ensures var e := entries[k].epoch;
            && e.app == app
            && (KeyOf(e) in db.epochs ==>
                  && db.epochs[KeyOf(e)].status == Open
                  && db.epochs[KeyOf(e)].lastBlock == e.lastBlock)
  {
    hide AllInputs, AllButLastClosed, LastClosedIffPassed, Dense, Linked;
  }

  lemma EntryHasPassed(
    world: World, app: Address, entries: seq<Entry>, k: nat, from: nat, to: nat)
    requires GoodWorld(world, app) && k < |entries| && from < to
    requires Segmented(app, world.epochLength(app), entries)
    requires IndexBetween(entries, CalculateEpochIndex(world.epochLength(app), from + 1),
                          CalculateEpochIndex(world.epochLength(app), to))
    requires AllButLastClosed(entries) && LastClosedIffPassed(entries, to)
    ensures entries[k].epoch.status == Open ||
            (entries[k].epoch.status == Closed && entries[k].epoch.lastBlock <= to)
  {
    var n := |entries| - 1;
    if k < n {
      assert entries[k].epoch.index < entries[n].epoch.index;
      WindowEndsBefore(world.epochLength(app), entries[k].epoch.index, to);
    }
  }

  lemma NoLateInputs(world: World, db: Db, app: Address, from: nat, to: nat, i: nat)
    requires GoodWorld(world, app) && AppInvariant(world, db, app, from) && from < to
    requires world.inputStoreFault(app, to).None?
    requires Counter(db, app) <= i
    requires (app, i) in IngestBatch(world, db, app, from + 1, to).inputs
    ensures var after := IngestBatch(world, db, app, from + 1, to);
            var row := after.inputs[(app, i)];
            && row.epoch in after.epochs
            && after.epochs[row.epoch].firstBlock <= row.block <= after.epochs[row.epoch].lastBlock
            && from < row.block <= to
  {
    var epochLength := world.epochLength(app);
    IngestRefines(world, db, app, from, to);
    IngestClosedForm(world, db, app, from, to);
    BatchFacts(world, db, app, from + 1, to);
    BatchRow(db, IngestBatch(world, db, app, from + 1, to), app,
             Batch(world, db, app, from + 1, to), epochLength, i);
    var row := IngestBatch(world, db, app, from + 1, to).inputs[(app, i)];
    WindowOfBlock(epochLength, row.epoch.1, row.block);
  }

  lemma BatchRow(db: Db, after: Db, app: Address, batch: seq<Input>, epochLength: nat, i: nat)
    requires epochLength >= 1 && Dense(db, app) && Counter(db, app) <= i
    requires NumberedFrom(batch, app, Counter(db, app))
    requires after.inputs == PutInputs(db.inputs, batch, epochLength)
    requires (app, i) in after.inputs
    ensures i < Counter(db, app) + |batch|
    ensures after.inputs[(app, i)] == RowOf(batch[i - Counter(db, app)], epochLength)
  {
    PutInputsRows(db.inputs, batch, epochLength, app, Counter(db, app));
    RowAdded(db, after, app, batch, epochLength, i);
  }

  // ---- splitting a range ----

  /** The tables differ at most in the statuses of epochs of `app`. */
  ghost predicate SameButStatuses(a: Db, b: Db, app: Address) {
    && a.apps == b.apps && a.outputs == b.outputs && a.nonces == b.nonces
    && a.espressoBlocks == b.espressoBlocks
    && a.inputs == b.inputs
    && Counter(a, app) == Counter(b, app)
    && a.epochs.Keys == b.epochs.Keys
    && (forall key | key in a.epochs && key.0 != app :: a.epochs[key] == b.epochs[key])
    && (forall key | key in a.epochs ::
          a.epochs[key].firstBlock == b.epochs[key].firstBlock
          && a.epochs[key].lastBlock == b.epochs[key].lastBlock)
  }

  /** Reading from+1 .. middle and then middle+1 .. to leaves the same input rows, counter, cursor and
      epoch windows as reading from+1 .. to at once, wherever the range is split. */
  lemma SplitIsInvisible(world: World, db: Db, app: Address, from: nat, middle: nat, to: nat)
    requires GoodWorld(world, app) && AppInvariant(world, db, app, from)
    requires from < middle < to
    requires world.inputStoreFault(app, middle).None? && world.inputStoreFault(app, to).None?
    ensures SameButStatuses(
              IngestBatch(world, IngestBatch(world, db, app, from + 1, middle), app, middle + 1, to),
              IngestBatch(world, db, app, from + 1, to), app)
  {
    var half := IngestBatch(world, db, app, from + 1, middle);
    BatchStep(world, db, app, from, middle);
    hide GoodWorld, IngestBatch, AppInvariant, CurrentEpochIsOpen, SameElsewhere;
    BatchStep(world, half, app, middle, to);
    BatchStep(world, db, app, from, to);
    TwoStepsAreOne(world, db, half, IngestBatch(world, half, app, middle + 1, to),
                   IngestBatch(world, db, app, from + 1, to), app, from, middle, to);
  }

  /** What is known of a stored batch, as one fact. */
  ghost predicate Advanced(world: World, db: Db, after: Db, app: Address, from: nat, to: nat) {
    && AppInvariant(world, db, app, from) && AppInvariant(world, after, app, to)
    && LedgerOf(after, app) == L1Advance(world, app, LedgerOf(db, app), from, to)
    && after.apps == db.apps[app := db.apps[app].(lastProcessedBlock := to)]
    && after.outputs == db.outputs && after.espressoBlocks == db.espressoBlocks
    && SameElsewhere(db, after, app)
  }

  lemma BatchStep(world: World, db: Db, app: Address, from: nat, to: nat)
    requires GoodWorld(world, app) && AppInvariant(world, db, app, from) && from < to
    requires world.inputStoreFault(app, to).None?
    ensures AppInvariant(world, IngestBatch(world, db, app, from + 1, to), app, to)
    ensures Advanced(world, db, IngestBatch(world, db, app, from + 1, to), app, from, to)
  {
    IngestRefines(world, db, app, from, to);
  }

  lemma TwoStepsAreOne(
    world: World, db: Db, half: Db, twice: Db, once: Db, app: Address,
    from: nat, middle: nat, to: nat)
    requires ChainOrdered(world.inputsAdded, app) && from < middle < to
    requires Advanced(world, db, half, app, from, middle)
    requires Advanced(world, half, twice, app, middle, to)
    requires Advanced(world, db, once, app, from, to)
    ensures SameButStatuses(twice, once, app)
  {
    hide L1Advance, AppInvariant, SameElsewhere;
    TwoStepsLedger(world, db, half, twice, once, app, from, middle, to);
    SameElsewhereBoth(db, half, twice, once, app);
    SameLedgerSameRows(world, twice, once, app, to);
  }

  lemma TwoStepsLedger(
    world: World, db: Db, half: Db, twice: Db, once: Db, app: Address,
    from: nat, middle: nat, to: nat)
    requires ChainOrdered(world.inputsAdded, app) && from < middle < to
    requires Advanced(world, db, half, app, from, middle)
    requires Advanced(world, half, twice, app, middle, to)
    requires Advanced(world, db, once, app, from, to)
    ensures Dense(twice, app) && Dense(once, app) && LedgerOf(twice, app) == LedgerOf(once, app)
  {
    hide CanonicalWindows, Horizon, Linked, SameElsewhere, ChainOrdered;
    L1AdvanceTwice(world, app, LedgerOf(db, app), from, middle, to);
  }

  lemma SameElsewhereBoth(db: Db, half: Db, twice: Db, once: Db, app: Address)
    requires SameElsewhere(db, half, app) && SameElsewhere(half, twice, app)
    requires SameElsewhere(db, once, app)
    ensures SameElsewhere(twice, once, app)
  {
  }

  /** An application's rows can be read off its ledger, but for the statuses. */
  lemma SameLedgerSameRows(world: World, a: Db, b: Db, app: Address, cursor: nat)
    requires AppInvariant(world, a, app, cursor) && AppInvariant(world, b, app, cursor)
    requires LedgerOf(a, app) == LedgerOf(b, app) && SameElsewhere(a, b, app)
    ensures a.inputs == b.inputs && Counter(a, app) == Counter(b, app)
    ensures a.epochs.Keys == b.epochs.Keys
    ensures forall key | key in a.epochs && key.0 != app :: a.epochs[key] == b.epochs[key]
    ensures forall key | key in a.epochs ::
              a.epochs[key].firstBlock == b.epochs[key].firstBlock
              && a.epochs[key].lastBlock == b.epochs[key].lastBlock
  {
    var l, r := LedgerOf(a, app), LedgerOf(b, app);
    assert |l.log| == Counter(a, app) && |r.log| == Counter(b, app);
    forall key: InputKey ensures key in a.inputs <==> key in b.inputs
      ensures key in a.inputs && key in b.inputs ==> a.inputs[key] == b.inputs[key]
    {
      if key.0 == app && key.1 < Counter(a, app) {
        assert a.inputs[(app, key.1)] == l.log[key.1] && b.inputs[(app, key.1)] == r.log[key.1];
      }
    }
    forall key: EpochKey ensures key in a.epochs <==> key in b.epochs {
      if key.0 == app {
        assert key.1 in l.epochs <==> (app, key.1) in a.epochs;
        assert key.1 in r.epochs <==> (app, key.1) in b.epochs;
      }
    }
  }

  // ---- a store that fails ----

  /** The counter moves outside the transaction. A store that fails leaves the rows as they were and
      the counter ahead of them, so the indices stay without gaps exactly if the batch was empty. */
  lemma FailedStoreLeavesGap(world: World, db: Db, app: Address, from: nat, to: nat)
    requires GoodWorld(world, app) && AppInvariant(world, db, app, from) && from < to
    requires !Survives(world.inputStoreFault(app, to),
                       |EntriesStmts(BatchEntries(world, db, app, from + 1, to))| + 2)
    ensures var after := IngestBatch(world, db, app, from + 1, to);
            && after == db.(counters := after.counters)
            && Counter(after, app) == Counter(db, app) + |Batch(world, db, app, from + 1, to)|
            && (Dense(after, app) <==> Batch(world, db, app, from + 1, to) == [])
  {
    hide BatchEntries, InputsIn, ChainOrdered, Horizon, CanonicalWindows, RenumberAll;
    CurrentEpochOpen(world, db, app, from);
    var after := IngestBatch(world, db, app, from + 1, to);
    var n := Counter(db, app);
    assert (app, n) !in after.inputs;
  }

  // ---- which epochs a batch closes ----

  /** If there are inputs, every listed epoch has one. */
  lemma ListedHaveInputs(
    app: Address, epochLength: nat, stored: Option<EpochData>, inputs: seq<Input>, endBlock: nat)
    requires epochLength >= 1 && inputs != []
    ensures var entries := CutBatch(app, epochLength, stored, inputs, endBlock);
            forall k | 0 <= k < |entries| ::
              entries[k].epoch.index in EpochIndices(inputs, epochLength)
  {
    hide CutInputs, EpochIndices;
    CutIndices(app, epochLength, stored, inputs);
  }

  lemma NothingListedButStored(
    app: Address, epochLength: nat, stored: Option<EpochData>, endBlock: nat)
    requires epochLength >= 1
    ensures CutBatch(app, epochLength, stored, [], endBlock) ==
      if stored.Some? && stored.value.lastBlock <= endBlock
      then [Entry(Closing(stored.value), [])] else []
  {
  }

  /** Reaching an epoch's last block is not enough to close it. An open epoch in the store is closed by
      a batch that reaches its last block exactly if the batch has an input in it, or has no inputs and
      begins in it. Otherwise it stays open in the store, whatever the loop did to it in memory. */
  lemma EpochClosesExactly(world: World, db: Db, app: Address, from: nat, to: nat, index: nat)
    requires GoodWorld(world, app) && AppInvariant(world, db, app, from) && from < to
    requires world.inputStoreFault(app, to).None?
    requires (app, index) in db.epochs && db.epochs[(app, index)].status == Open
    ensures var after := IngestBatch(world, db, app, from + 1, to);
            var inputs := InputsIn(world.inputsAdded, app, from + 1, to);
            var epochLength := world.epochLength(app);
            && (app, index) in after.epochs
            && (after.epochs[(app, index)].status == Closed <==>
                  && db.epochs[(app, index)].lastBlock <= to
                  && (|| index in EpochIndices(inputs, epochLength)
                      || (inputs == [] && index == CalculateEpochIndex(epochLength, from + 1))))
  {
    hide IngestBatch, AppInvariant, GoodEntries, PutEpochs, EpochIndices, InputsIn, Batch,
      BatchEntries, Lists;
    InvariantBasics(world, db, app, from);
    IngestClosedForm(world, db, app, from, to);
    BatchEntriesGood(world, db, app, from, to);
    if db.epochs[(app, index)].lastBlock <= to {
      ListedByBatch(world, db, app, from, to, index);
    }
    ClosedIfListed(world, db, app, BatchEntries(world, db, app, from + 1, to),
                   Batch(world, db, app, from + 1, to), from, to, index);
  }

  /** Its window, no claim yet, and closed if `to` has reached its last block. */
  function FreshRow(epochLength: nat, index: nat, to: nat): EpochRow
    requires epochLength >= 1
  {
    var last := index * epochLength + (epochLength - 1);
    EpochRow(index * epochLength, last, None, if last <= to then Closed else Open)
  }

  /** An epoch that a batch is the first to have inputs of is stored with its window and no claim, closed
      exactly if the batch reaches its last block. */
  lemma NewEpochClosesExactly(
    world: World, db: Db, app: Address, from: nat, to: nat, index: nat)
    requires GoodWorld(world, app) && AppInvariant(world, db, app, from) && from < to
    requires world.inputStoreFault(app, to).None?
    requires (app, index) !in db.epochs
    requires index in EpochIndices(InputsIn(world.inputsAdded, app, from + 1, to),
                                   world.epochLength(app))
    ensures var after := IngestBatch(world, db, app, from + 1, to);
            && (app, index) in after.epochs
            && after.epochs[(app, index)] == FreshRow(world.epochLength(app), index, to)
  {
    hide IngestBatch, AppInvariant, GoodWorld, GoodEntries, PutEpochs, EpochIndices, InputsIn, Batch,
      BatchEntries, FreshRow;
    InvariantBasics(world, db, app, from);
    EpochsAfterBatch(world, db, app, from, to);
    BatchEntriesGood(world, db, app, from, to);
    NewEntryRow(db, app, world.epochLength(app), BatchEntries(world, db, app, from + 1, to),
                Batch(world, db, app, from + 1, to), from, to, index);
  }

  lemma EpochsAfterBatch(world: World, db: Db, app: Address, from: nat, to: nat)
    requires GoodWorld(world, app) && AppInvariant(world, db, app, from) && from < to
    requires world.inputStoreFault(app, to).None?
    ensures IngestBatch(world, db, app, from + 1, to).epochs
         == PutEpochs(db, BatchEntries(world, db, app, from + 1, to)).epochs
    ensures EpochIndices(Batch(world, db, app, from + 1, to), world.epochLength(app))
         == EpochIndices(InputsIn(world.inputsAdded, app, from + 1, to), world.epochLength(app))
  {
    hide IngestBatch, AppInvariant, PutEpochs, EpochIndices, InputsIn, RenumberAll, BatchEntries,
      PutInputs;
    InvariantBasics(world, db, app, from);
    IngestClosedForm(world, db, app, from, to);
    RenumberingKeepsEpochs(InputsIn(world.inputsAdded, app, from + 1, to), Counter(db, app),
                           world.shouldModifyIndex, world.epochLength(app));
  }

  lemma NewEntryRow(
    db: Db, app: Address, epochLength: nat, entries: seq<Entry>, batch: seq<Input>, from: nat, to: nat,
    index: nat)
    requires epochLength >= 1 && GoodEntries(app, epochLength, entries, batch, from, to)
    requires (app, index) !in db.epochs && index in EpochIndices(batch, epochLength)
    ensures var after := PutEpochs(db, entries).epochs;
            && (app, index) in after
            && after[(app, index)] == FreshRow(epochLength, index, to)
  {
    hide GoodEntries, PutEpochs, EpochIndices, Segmented, IndicesStrictlyRise;
    InputsAreListed(app, epochLength, entries, batch, from, to, index);
    EntriesSegmented(app, epochLength, entries, batch, from, to);
    var k :| 0 <= k < |entries| && entries[k].epoch.index == index;
    EntryStatus(app, epochLength, entries, batch, from, to, k);
    NewRow(db, entries, k);
  }

  lemma NewRow(db: Db, entries: seq<Entry>, k: nat)
    requires IndicesStrictlyRise(entries) && k < |entries|
    ensures var e, after := entries[k].epoch, PutEpochs(db, entries).epochs;
            && KeyOf(e) in after
            && (KeyOf(e) !in db.epochs ==>
                  after[KeyOf(e)] == EpochRow(e.firstBlock, e.lastBlock, None, e.status))
  {
    hide PutEpochs;
    PutEpochsRow(db, entries, k);
  }

  ghost predicate Lists(entries: seq<Entry>, index: nat) {
    exists k :: 0 <= k < |entries| && entries[k].epoch.index == index
  }

  /** Which stored epochs a batch lists. */
  lemma ListedByBatch(world: World, db: Db, app: Address, from: nat, to: nat, index: nat)
    requires GoodWorld(world, app) && AppInvariant(world, db, app, from) && from < to
    requires (app, index) in db.epochs && db.epochs[(app, index)].lastBlock <= to
    ensures var inputs := InputsIn(world.inputsAdded, app, from + 1, to);
            var epochLength := world.epochLength(app);
            Lists(BatchEntries(world, db, app, from + 1, to), index) <==>
              || index in EpochIndices(inputs, epochLength)
              || (inputs == [] && index == CalculateEpochIndex(epochLength, from + 1))
  {
    hide AppInvariant, EpochIndices, InputsIn, RenumberAll, CutBatch, GoodEntries, ChainOrdered;
    BatchEntriesGood(world, db, app, from, to);
    InvariantBasics(world, db, app, from);
    var epochLength := world.epochLength(app);
    var inputs := InputsIn(world.inputsAdded, app, from + 1, to);
    var batch := Batch(world, db, app, from + 1, to);
    var stored := StoredEpoch(db, app, CalculateEpochIndex(epochLength, from + 1));
    RenumberingKeepsEpochs(inputs, Counter(db, app), world.shouldModifyIndex, epochLength);
    if batch == [] {
      NothingListedButStored(app, epochLength, stored, to);
      NoInputsNoEpochs(epochLength);
      ListsAtMostOne(stored, index);
    } else {
      ListedHaveInputs(app, epochLength, stored, batch, to);
      InputsAreListed(app, epochLength, BatchEntries(world, db, app, from + 1, to), batch, from, to,
                      index);
    }
  }

  lemma ListsAtMostOne(stored: Option<EpochData>, index: nat)
    ensures !Lists([], index)
    ensures stored.Some? ==>
              (Lists([Entry(Closing(stored.value), [])], index) <==> stored.value.index == index)
  {
    if stored.Some? {
      assert [Entry(Closing(stored.value), [])][0].epoch.index == stored.value.index;
    }
  }

  lemma InputsAreListed(
    app: Address, epochLength: nat, entries: seq<Entry>, batch: seq<Input>, from: nat, to: nat,
    index: nat)
    requires epochLength >= 1 && GoodEntries(app, epochLength, entries, batch, from, to)
    ensures index in EpochIndices(batch, epochLength) ==> Lists(entries, index)
  {
    hide IndexBetween, AllButLastClosed, LastClosedIffPassed, EpochIndices, AllInputs;
    BatchEpochListed(app, epochLength, entries, index);
  }

  lemma NoInputsNoEpochs(epochLength: nat)
    requires epochLength >= 1
    ensures EpochIndices([], epochLength) == {}
  {
  }

  lemma ClosedIfListed(
    world: World, db: Db, app: Address, entries: seq<Entry>, batch: seq<Input>, from: nat, to: nat,
    index: nat)
    requires GoodWorld(world, app) && AppInvariant(world, db, app, from) && from < to
    requires GoodEntries(app, world.epochLength(app), entries, batch, from, to)
    requires (app, index) in db.epochs && db.epochs[(app, index)].status == Open
    ensures var after := PutEpochs(db, entries).epochs;
            && (app, index) in after
            && (after[(app, index)].status == Closed <==>
                  db.epochs[(app, index)].lastBlock <= to && Lists(entries, index))
  {
    hide AppInvariant, GoodEntries, PutEpochs, GoodWorld;
    InvariantBasics(world, db, app, from);
    RowAfterBatch(world, db, app, entries, batch, from, to, (app, index));
    PutEpochsKeys(db, entries);
    EntriesSegmented(app, world.epochLength(app), entries, batch, from, to);
    ListedEpochKey(app, world.epochLength(app), entries, index);
    if Lists(entries, index) {
      var k :| 0 <= k < |entries| && entries[k].epoch.index == index;
      StoredEntryIsOpen(world, db, app, entries, batch, from, to, k);
      EntryStatus(app, world.epochLength(app), entries, batch, from, to, k);
      PutEpochsRow(db, entries, k);
    }
  }

  lemma EntriesSegmented(
    app: Address, epochLength: nat, entries: seq<Entry>, batch: seq<Input>, from: nat, to: nat)
    requires epochLength >= 1 && GoodEntries(app, epochLength, entries, batch, from, to)
    ensures Segmented(app, epochLength, entries) && IndicesStrictlyRise(entries)
  {
  }

  /** An entry of a batch has the window of its index, and is closed if the batch reaches its last block
      and open if not. */
  lemma EntryStatus(
    app: Address, epochLength: nat, entries: seq<Entry>, batch: seq<Input>, from: nat, to: nat,
    k: nat)
    requires epochLength >= 1 && GoodEntries(app, epochLength, entries, batch, from, to)
    requires k < |entries|
    ensures var e := entries[k].epoch;
            && e.app == app
            && e.firstBlock == FirstBlock(epochLength, e.index)
            && e.lastBlock == LastBlock(epochLength, e.index)
            && e.status == if e.lastBlock <= to then Closed else Open
  {
    hide AllInputs;
    var n := |entries| - 1;
    if k < n {
      assert entries[k].epoch.index < entries[n].epoch.index;
      WindowEndsBefore(epochLength, entries[k].epoch.index, to);
    }
  }
}
