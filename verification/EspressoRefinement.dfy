/** Storing an Espresso input keeps the invariant and appends exactly that input. */
module EspressoRefinement {
  import opened Model
  import opened EpochMath
  import opened EpochCut
  import opened Tables
  import opened World
  import opened Ledger
  import opened EspressoInput

  predicate Accepts(world: World, app: Address, l: Ledger, h: nat, i: nat)
    requires i < |world.transactions(h)|
  {
    && Admissible(world, app, l.nonces, h, i)
    && Survives(world.espressoStoreFault(h, i), ESPRESSO_STORE_STATEMENTS)
  }

  /** The epoch the source picks, by the quirk of `EspressoEpoch`. */
  function PickedEpoch(epochs: set<nat>, epochLength: nat, block: nat): nat
    requires epochLength >= 1
  {
    if epochLength in epochs then epochLength else CalculateEpochIndex(epochLength, block)
  }

  function EspressoRow(world: World, app: Address, l: Ledger, h: nat, i: nat): InputRow
    requires world.epochLength(app) >= 1
    requires i < |world.transactions(h)| && Accepts(world, app, l, h, i)
  {
    var tx := world.transactions(h)[i];
    var input := EspressoInputOf(world, h, app, tx, |l.log|, PayloadBytes(tx.payload).value);
    InputRow(input.raw, input.block,
             (app, PickedEpoch(l.epochs, world.epochLength(app), input.block)), input.txId)
  }

  /** Append an accepted transaction; any other leaves no trace. */
  function LedgerDeliver(world: World, app: Address, l: Ledger, h: nat, i: nat): Ledger
    requires world.epochLength(app) >= 1 && i < |world.transactions(h)|
  {
    if !Accepts(world, app, l, h, i) then l
    else
      var tx := world.transactions(h)[i];
      Ledger(l.log + [EspressoRow(world, app, l, h, i)],
             l.epochs + {PickedEpoch(l.epochs, world.epochLength(app), world.l1FinalizedHeight(h))},
             l.nonces[(tx.sender, app) := tx.nonce + 1])
  }

  function LedgerDeliverUpTo(world: World, app: Address, l: Ledger, h: nat, n: nat): Ledger
    requires world.epochLength(app) >= 1 && n <= |world.transactions(h)|
  {
    if n == 0 then l
    else LedgerDeliver(world, app, LedgerDeliverUpTo(world, app, l, h, n - 1), h, n - 1)
  }

  function LedgerDeliverBlock(world: World, app: Address, l: Ledger, h: nat): Ledger
    requires world.epochLength(app) >= 1
  {
    LedgerDeliverUpTo(world, app, l, h, |world.transactions(h)|)
  }

  /** The tables after one input has been stored, with the fields that changed. */
  lemma StoreOneInput(db: Db, epoch: EpochData, input: Input, block: nat, app: Address)
    requires app in db.apps && epoch.app == app && input.app == app
    requires (app, input.index) !in db.inputs
    ensures StoreEntries(db, [Entry(epoch, [input])], block, app)
         == Some(db.(epochs := db.epochs[(app, epoch.index) := UpsertedRow(db, epoch)],
                     inputs := db.inputs[(app, input.index) :=
                       InputRow(input.raw, input.block, (app, epoch.index), input.txId)],
                     apps := db.apps[app := db.apps[app].(lastProcessedBlock := block)]))
  {
    var entry := Entry(epoch, [input]);
    var upsert, insert := UpsertEpoch(epoch), InsertInput(input, (app, epoch.index));
    assert [entry][..0] == [];
    assert EntriesStmts([entry]) == EntryStmts(entry) == [upsert, insert];
    assert [upsert, insert][..1] == [upsert];
    assert [upsert][..0] == [];
    assert Run(Some(db), [upsert]) == Exec(db, upsert);
  }

  lemma EspressoEpochPicked(world: World, db: Db, app: Address, h: nat)
    requires world.epochLength(app) >= 1
    ensures var f := world.l1FinalizedHeight(h);
            var epoch := EspressoEpoch(db, app, world.epochLength(app), f);
            && epoch.app == app
            && epoch.index == PickedEpoch(EpochsOf(db, app), world.epochLength(app), f)
  {
    var epochLength := world.epochLength(app);
    assert epochLength in EpochsOf(db, app) <==> (app, epochLength) in db.epochs;
  }

  lemma EspressoEpochFits(world: World, db: Db, app: Address, h: nat)
    requires AppInvariant(world, db, app, world.l1FinalizedHeight(h))
    ensures var f := world.l1FinalizedHeight(h);
            var epochLength := world.epochLength(app);
            var epoch := EspressoEpoch(db, app, epochLength, f);
            && epoch.app == app
            && epoch.index == PickedEpoch(EpochsOf(db, app), epochLength, f)
            && CanonicalEpoch(app, epochLength, epoch)
            && ((app, epochLength) in db.epochs ==>
                  UpsertedRow(db, epoch) == db.epochs[(app, epochLength)])
            && ((app, epochLength) !in db.epochs ==> UpsertedRow(db, epoch).status == Open)
            && UpsertedRow(db, epoch).firstBlock == FirstBlock(epochLength, epoch.index)
            && UpsertedRow(db, epoch).lastBlock == LastBlock(epochLength, epoch.index)
  {
    var epochLength := world.epochLength(app);
    assert epochLength in EpochsOf(db, app) <==> (app, epochLength) in db.epochs;
  }

  /** The tables after an accepted transaction. */
  ghost function Delivered(world: World, db: Db, app: Address, h: nat, i: nat): Db
    requires i < |world.transactions(h)|
    requires world.epochLength(app) >= 1 && app in db.apps && Dense(db, app)
    requires Accepts(world, app, LedgerOf(db, app), h, i)
  {
    var tx, f, n := world.transactions(h)[i], world.l1FinalizedHeight(h), Counter(db, app);
    var epoch := EspressoEpoch(db, app, world.epochLength(app), f);
    Db(db.apps[app := db.apps[app].(lastProcessedBlock := f)],
       db.epochs[(app, epoch.index) := UpsertedRow(db, epoch)],
       db.inputs[(app, n) := EspressoRow(world, app, LedgerOf(db, app), h, i)],
       db.outputs,
       db.nonces[(tx.sender, app) := tx.nonce + 1],
       db.counters[app := n + 1],
       db.espressoBlocks)
  }

  lemma DeliverClosedForm(world: World, db: Db, app: Address, h: nat, i: nat)
    requires i < |world.transactions(h)|
    requires world.epochLength(app) >= 1 && app in db.apps && Dense(db, app)
    requires Accepts(world, app, LedgerOf(db, app), h, i)
    ensures DeliverTx(world, db, app, h, i) == Delivered(world, db, app, h, i)
  {
    hide Dense, Admissible, StoreEntries, EspressoEntries, EspressoRow, EspressoEpoch,
      UpsertedRow;
    EspressoEntry(world, db, app, h, i);
    var entry := EspressoEntries(world, db, app, h, i)[0];
    NextIsFree(db, app);
    StoreOneInput(db, entry.epoch, entry.inputs[0], world.l1FinalizedHeight(h), app);
    AcceptedNonce(world, app, LedgerOf(db, app), h, i);
  }

  lemma NextIsFree(db: Db, app: Address)
    requires Dense(db, app)
    ensures (app, Counter(db, app)) !in db.inputs
  {
  }

  lemma AcceptedNonce(world: World, app: Address, l: Ledger, h: nat, i: nat)
    requires i < |world.transactions(h)| && Accepts(world, app, l, h, i)
    ensures var tx := world.transactions(h)[i];
            tx.Signed? && tx.app == app && tx.nonce == NonceIn(l.nonces, tx.sender, app)
  {
  }

  /** What is stored for an accepted transaction, and the row that makes. */
  lemma EspressoEntry(world: World, db: Db, app: Address, h: nat, i: nat)
    requires i < |world.transactions(h)|
    requires world.epochLength(app) >= 1 && app in db.apps && Dense(db, app)
    requires Accepts(world, app, LedgerOf(db, app), h, i)
    ensures var entries := EspressoEntries(world, db, app, h, i);
            var epoch := EspressoEpoch(db, app, world.epochLength(app), world.l1FinalizedHeight(h));
            && |entries| == 1 && |entries[0].inputs| == 1
            && entries == [Entry(epoch, [entries[0].inputs[0]])]
            && epoch.app == app
            && var input := entries[0].inputs[0];
               && input.app == app && input.index == Counter(db, app)
               && EspressoRow(world, app, LedgerOf(db, app), h, i)
                    == InputRow(input.raw, input.block, (app, epoch.index), input.txId)
  {
    hide EspressoEpoch, UpsertedRow;
    EspressoEpochPicked(world, db, app, h);
  }

  lemma AcceptedRefines(world: World, db: Db, app: Address, h: nat, i: nat)
    requires i < |world.transactions(h)|
    requires AppInvariant(world, db, app, world.l1FinalizedHeight(h))
    requires Accepts(world, app, LedgerOf(db, app), h, i)
    ensures var after := DeliverTx(world, db, app, h, i);
            && AppInvariant(world, after, app, world.l1FinalizedHeight(h))
            && LedgerOf(after, app) == LedgerDeliver(world, app, LedgerOf(db, app), h, i)
            && SameElsewhere(db, after, app)
  {
    hide EspressoEpoch, DeliverTx, EspressoEntries, UpsertedRow;
    DeliverClosedForm(world, db, app, h, i);
    EspressoEntry(world, db, app, h, i);
    EspressoEpochFits(world, db, app, h);
    DeliveredRefines(world, db, app, h, DeliverTx(world, db, app, h, i),
                     EspressoRow(world, app, LedgerOf(db, app), h, i));
  }

  /** What a delivered transaction leaves of the rest of the tables. */
  lemma DeliverFrame(world: World, db: Db, app: Address, h: nat, i: nat)
    requires i < |world.transactions(h)|
    requires AppInvariant(world, db, app, world.l1FinalizedHeight(h))
    ensures var after := DeliverTx(world, db, app, h, i);
            && after.outputs == db.outputs && after.espressoBlocks == db.espressoBlocks
            && (if Accepts(world, app, LedgerOf(db, app), h, i)
                then after.apps == db.apps[app := db.apps[app].(
                                     lastProcessedBlock := world.l1FinalizedHeight(h))]
                else after == db)
  {
    if Accepts(world, app, LedgerOf(db, app), h, i) {
      DeliverClosedForm(world, db, app, h, i);
    }
  }

  /** The step that delivers a transaction: it keeps the invariant, grows the log by the one input if
      the transaction is accepted and changes nothing at all if it is not. */
  lemma DeliverRefines(world: World, db: Db, app: Address, h: nat, i: nat)
    requires i < |world.transactions(h)|
    requires AppInvariant(world, db, app, world.l1FinalizedHeight(h))
    ensures var after := DeliverTx(world, db, app, h, i);
            && AppInvariant(world, after, app, world.l1FinalizedHeight(h))
            && LedgerOf(after, app) == LedgerDeliver(world, app, LedgerOf(db, app), h, i)
            && after.outputs == db.outputs && after.espressoBlocks == db.espressoBlocks
            && SameElsewhere(db, after, app)
            && (!Accepts(world, app, LedgerOf(db, app), h, i) ==> after == db)
  {
    DeliverFrame(world, db, app, h, i);
    if Accepts(world, app, LedgerOf(db, app), h, i) {
      AcceptedRefines(world, db, app, h, i);
    }
  }

  lemma DeliveredRefines(world: World, db: Db, app: Address, h: nat, after: Db, row: InputRow)
    requires AppInvariant(world, db, app, world.l1FinalizedHeight(h))
    requires var epoch := EspressoEpoch(db, app, world.epochLength(app), world.l1FinalizedHeight(h));
             && after.epochs == db.epochs[(app, epoch.index) := UpsertedRow(db, epoch)]
             && row.epoch == (app, epoch.index)
    requires after.inputs == db.inputs[(app, Counter(db, app)) := row]
    requires after.apps - {app} == db.apps - {app} && app in after.apps
    requires after.counters == db.counters[app := Counter(db, app) + 1]
    ensures AppInvariant(world, after, app, world.l1FinalizedHeight(h))
    ensures LedgerOf(after, app) == Ledger(
              LedgerOf(db, app).log + [row],
              EpochsOf(db, app) + {PickedEpoch(EpochsOf(db, app), world.epochLength(app),
                                               world.l1FinalizedHeight(h))},
              after.nonces)
    ensures SameElsewhere(db, after, app)
  {
    DeliveredEpochs(world, db, app, h, after);
    DeliveredLog(db, app, after, row);
    DeliveredRest(world, db, app, h, after, row);
  }

  lemma DeliveredRest(world: World, db: Db, app: Address, h: nat, after: Db, row: InputRow)
    requires AppInvariant(world, db, app, world.l1FinalizedHeight(h))
    requires var epoch := EspressoEpoch(db, app, world.epochLength(app), world.l1FinalizedHeight(h));
             && after.epochs == db.epochs[(app, epoch.index) := UpsertedRow(db, epoch)]
             && row.epoch == (app, epoch.index)
    requires after.inputs == db.inputs[(app, Counter(db, app)) := row]
    requires after.apps - {app} == db.apps - {app}
    requires after.counters - {app} == db.counters - {app}
    ensures Linked(after, app) && SameElsewhere(db, after, app)
  {
  }

  lemma DeliveredEpochs(world: World, db: Db, app: Address, h: nat, after: Db)
    requires AppInvariant(world, db, app, world.l1FinalizedHeight(h))
    requires var epoch := EspressoEpoch(db, app, world.epochLength(app), world.l1FinalizedHeight(h));
             after.epochs == db.epochs[(app, epoch.index) := UpsertedRow(db, epoch)]
    ensures CanonicalWindows(world, after, app)
    ensures Horizon(world, after, app, world.l1FinalizedHeight(h))
    ensures EpochsOf(after, app) == EpochsOf(db, app)
      + {PickedEpoch(EpochsOf(db, app), world.epochLength(app), world.l1FinalizedHeight(h))}
  {
    EspressoEpochFits(world, db, app, h);
    DeliveredEpochSet(world, db, app, h, after);
  }

  lemma DeliveredEpochSet(world: World, db: Db, app: Address, h: nat, after: Db)
    requires world.epochLength(app) >= 1
    requires var epoch := EspressoEpoch(db, app, world.epochLength(app), world.l1FinalizedHeight(h));
             after.epochs == db.epochs[(app, epoch.index) := UpsertedRow(db, epoch)]
    ensures EpochsOf(after, app) == EpochsOf(db, app)
      + {PickedEpoch(EpochsOf(db, app), world.epochLength(app), world.l1FinalizedHeight(h))}
  {
    hide UpsertedRow;
    EspressoEpochPicked(world, db, app, h);
    var k := EspressoEpoch(db, app, world.epochLength(app), world.l1FinalizedHeight(h)).index;
    forall x: nat ensures x in EpochsOf(after, app) <==> x in EpochsOf(db, app) + {k} {
      assert x in EpochsOf(after, app) <==> (app, x) in after.epochs;
      assert x in EpochsOf(db, app) <==> (app, x) in db.epochs;
    }
  }

  lemma DeliveredLog(db: Db, app: Address, after: Db, row: InputRow)
    requires Dense(db, app)
    requires after.inputs == db.inputs[(app, Counter(db, app)) := row]
    requires Counter(after, app) == Counter(db, app) + 1
    ensures Dense(after, app)
    ensures LedgerOf(after, app).log == LedgerOf(db, app).log + [row]
  {
    assert Dense(after, app);
  }

  /** At whatever height: as far as log, epochs and nonces go, delivering a transaction to the tables is
      delivering it to the ledger. Only the horizon needs the base layer to have been read first. */
  lemma DeliverAtAnyHeight(world: World, db: Db, app: Address, h: nat, i: nat)
    requires i < |world.transactions(h)|
    requires world.epochLength(app) >= 1 && app in db.apps && Dense(db, app)
    ensures var after := DeliverTx(world, db, app, h, i);
            && app in after.apps && Dense(after, app)
            && LedgerOf(after, app) == LedgerDeliver(world, app, LedgerOf(db, app), h, i)
  {
    hide EspressoEpoch, EspressoEntries, UpsertedRow, Dense, StoreEntries, EspressoRow, Admissible,
      PickedEpoch;
    if Accepts(world, app, LedgerOf(db, app), h, i) {
      DeliverClosedForm(world, db, app, h, i);
      EspressoEntry(world, db, app, h, i);
      var after := DeliverTx(world, db, app, h, i);
      DeliveredLog(db, app, after, EspressoRow(world, app, LedgerOf(db, app), h, i));
      DeliveredEpochSet(world, db, app, h, after);
    }
  }

  lemma {:induction false} DeliverUpToRefines(world: World, db: Db, app: Address, h: nat, n: nat)
    requires n <= |world.transactions(h)|
    requires AppInvariant(world, db, app, world.l1FinalizedHeight(h))
    ensures var after := DeliverUpTo(world, db, app, h, n);
            && AppInvariant(world, after, app, world.l1FinalizedHeight(h))
            && LedgerOf(after, app) == LedgerDeliverUpTo(world, app, LedgerOf(db, app), h, n)
            && after.outputs == db.outputs && after.espressoBlocks == db.espressoBlocks
            && SameElsewhere(db, after, app)
  {
    hide DeliverTx, LedgerDeliver;
    if n > 0 {
      var before := DeliverUpTo(world, db, app, h, n - 1);
      DeliverUpToRefines(world, db, app, h, n - 1);
      DeliverRefines(world, before, app, h, n - 1);
      SameElsewhereChain(db, before, DeliverUpTo(world, db, app, h, n), app);
    }
  }

  lemma SameElsewhereChain(a: Db, b: Db, c: Db, app: Address)
    requires SameElsewhere(a, b, app) && SameElsewhere(b, c, app)
    ensures SameElsewhere(a, c, app)
  {
  }

  // ---- what the epoch quirk costs, exactly ----

  /** A new Espresso input lies in the window of the epoch it is stored in exactly when there is no
      epoch whose index is the epoch length, or that one happens to be the right one. */
  lemma EspressoInputInWindow(world: World, db: Db, app: Address, h: nat, i: nat)
    requires i < |world.transactions(h)|
    requires AppInvariant(world, db, app, world.l1FinalizedHeight(h))
    requires Accepts(world, app, LedgerOf(db, app), h, i)
    ensures var epochLength := world.epochLength(app);
            var after := DeliverTx(world, db, app, h, i);
            var row := EspressoRow(world, app, LedgerOf(db, app), h, i);
            var right := CalculateEpochIndex(epochLength, world.l1FinalizedHeight(h));
            && after.inputs == db.inputs[(app, Counter(db, app)) := row]
            && row.epoch in after.epochs
            && (after.epochs[row.epoch].firstBlock <= row.block <= after.epochs[row.epoch].lastBlock
                <==> (app, epochLength) !in db.epochs || epochLength == right)
  {
    DeliverClosedForm(world, db, app, h, i);
    EspressoEpochFits(world, db, app, h);
    var epochLength := world.epochLength(app);
    var epoch := EspressoEpoch(db, app, epochLength, world.l1FinalizedHeight(h));
    assert epochLength in EpochsOf(db, app) <==> (app, epochLength) in db.epochs;
    WindowOfBlock(epochLength, epoch.index, world.l1FinalizedHeight(h));
  }

  /** An Espresso input changes the status of a stored epoch exactly when there is no epoch whose
      index is the epoch length and the epoch of the finalized block is stored and not open. It is
      then opened again, and that block is the last one of its window. */
  lemma EspressoReopens(world: World, db: Db, app: Address, h: nat, i: nat, key: EpochKey)
    requires i < |world.transactions(h)| && key in db.epochs
    requires AppInvariant(world, db, app, world.l1FinalizedHeight(h))
    requires Accepts(world, app, LedgerOf(db, app), h, i)
    ensures var f := world.l1FinalizedHeight(h);
            var epochLength := world.epochLength(app);
            var after := DeliverTx(world, db, app, h, i);
            && key in after.epochs
            && (after.epochs[key] != db.epochs[key] <==>
                  && (app, epochLength) !in db.epochs
                  && key == (app, CalculateEpochIndex(epochLength, f))
                  && db.epochs[key].status != Open)
            && (after.epochs[key] != db.epochs[key] ==>
                  && after.epochs[key] == db.epochs[key].(status := Open)
                  && db.epochs[key].lastBlock == f)
  {
    hide DeliverTx;
    DeliverClosedForm(world, db, app, h, i);
    EspressoEpochFits(world, db, app, h);
    var f := world.l1FinalizedHeight(h);
    var epochLength := world.epochLength(app);
    assert epochLength in EpochsOf(db, app) <==> (app, epochLength) in db.epochs;
    HorizonMeansLastBlock(world, db, app, f);
  }

  /** The one epoch it can add is that of the finalized block, with its window, open and without a
      claim. */
  lemma EspressoAddsEpoch(world: World, db: Db, app: Address, h: nat, i: nat, key: EpochKey)
    requires i < |world.transactions(h)| && key !in db.epochs
    requires AppInvariant(world, db, app, world.l1FinalizedHeight(h))
    requires Accepts(world, app, LedgerOf(db, app), h, i)
    ensures var epochLength := world.epochLength(app);
            var after := DeliverTx(world, db, app, h, i);
            && (key in after.epochs <==>
                  && (app, epochLength) !in db.epochs
                  && key == (app, CalculateEpochIndex(epochLength, world.l1FinalizedHeight(h))))
            && (key in after.epochs ==>
                  var row := after.epochs[key];
                  && row.firstBlock == FirstBlock(epochLength, key.1)
                  && row.lastBlock == LastBlock(epochLength, key.1)
                  && row.claimHash == None && row.status == Open)
  {
    hide DeliverTx, FirstBlock, LastBlock;
    DeliverClosedForm(world, db, app, h, i);
    EspressoEpochFits(world, db, app, h);
    var epochLength := world.epochLength(app);
    assert epochLength in EpochsOf(db, app) <==> (app, epochLength) in db.epochs;
  }

  /** The epoch of the cursor is open unless the cursor has reached its last block. */
  lemma HorizonMeansLastBlock(world: World, db: Db, app: Address, cursor: nat)
    requires AppInvariant(world, db, app, cursor)
    ensures var key := (app, CalculateEpochIndex(world.epochLength(app), cursor));
            key in db.epochs && db.epochs[key].status != Open ==> db.epochs[key].lastBlock == cursor
  {
    var epochLength := world.epochLength(app);
    WindowOfBlock(epochLength, CalculateEpochIndex(epochLength, cursor), cursor);
    WindowEndsBefore(epochLength, CalculateEpochIndex(epochLength, cursor), cursor + 1);
  }
}
