/** Every stored epoch keeps its canonical window, whether the stores of a run succeed or fail. */
module Windows {
  import opened Model
  import opened EpochCut
  import opened Tables
  import opened World
  import opened Ingest
  import opened Ledger
  import opened EspressoInput

  predicate CanonicalUpserts(stmts: seq<Stmt>, app: Address, epochLength: nat) {
    forall k | 0 <= k < |stmts| && stmts[k].UpsertEpoch? ::
      CanonicalEpoch(app, epochLength, stmts[k].epoch)
  }

  lemma {:induction false} RunKeepsWindows(world: World, db: Db, stmts: seq<Stmt>, app: Address)
    requires CanonicalWindows(world, db, app)
    requires CanonicalUpserts(stmts, app, world.epochLength(app))
    ensures var after := Run(Some(db), stmts);
            after.Some? ==> CanonicalWindows(world, after.value, app)
  {
    if stmts != [] {
      RunKeepsWindows(world, db, stmts[..|stmts| - 1], app);
    }
  }

  predicate CanonicalEntries(entries: seq<Entry>, app: Address, epochLength: nat) {
    forall k | 0 <= k < |entries| :: CanonicalEpoch(app, epochLength, entries[k].epoch)
  }

  lemma {:induction false} CanonicalStmts(entries: seq<Entry>, app: Address, epochLength: nat)
    requires CanonicalEntries(entries, app, epochLength)
    ensures CanonicalUpserts(EntriesStmts(entries), app, epochLength)
  {
    if entries != [] {
      CanonicalStmts(entries[..|entries| - 1], app, epochLength);
    }
  }

  lemma StoreKeepsWindows(world: World, db: Db, entries: seq<Entry>, block: nat, app: Address)
    requires CanonicalWindows(world, db, app)
    requires CanonicalEntries(entries, app, world.epochLength(app))
    ensures var after := StoreEntries(db, entries, block, app);
            after.Some? ==> CanonicalWindows(world, after.value, app)
  {
    CanonicalStmts(entries, app, world.epochLength(app));
    RunKeepsWindows(world, db, EntriesStmts(entries), app);
  }

  lemma BatchKeepsWindows(world: World, db: Db, app: Address, startBlock: nat, endBlock: nat)
    requires world.epochLength(app) >= 1 && CanonicalWindows(world, db, app)
    requires CurrentEpochIsOpen(world, db, app, startBlock) ==>
               Segmented(app, world.epochLength(app),
                         BatchEntries(world, db, app, startBlock, endBlock))
    ensures CanonicalWindows(world, IngestBatch(world, db, app, startBlock, endBlock), app)
  {
    if CurrentEpochIsOpen(world, db, app, startBlock) {
      var counted :=
        AdvanceCounter(db, app, |InputsIn(world.inputsAdded, app, startBlock, endBlock)|);
      StoreKeepsWindows(world, counted, BatchEntries(world, db, app, startBlock, endBlock),
                        endBlock, app);
    }
  }

  lemma DeliverKeepsWindows(world: World, db: Db, app: Address, h: nat, i: nat)
    requires world.epochLength(app) >= 1 && i < |world.transactions(h)|
    requires CanonicalWindows(world, db, app)
    ensures CanonicalWindows(world, DeliverTx(world, db, app, h, i), app)
  {
    if Admissible(world, app, db.nonces, h, i) {
      var entries := EspressoEntries(world, db, app, h, i);
      StoreKeepsWindows(world, db, entries, world.l1FinalizedHeight(h), app);
    }
  }

  lemma {:induction false} DeliverUpToKeepsWindows(
    world: World, db: Db, app: Address, h: nat, n: nat)
    requires world.epochLength(app) >= 1 && n <= |world.transactions(h)|
    requires CanonicalWindows(world, db, app)
    ensures CanonicalWindows(world, DeliverUpTo(world, db, app, h, n), app)
  {
    hide DeliverTx, CanonicalWindows;
    if n > 0 {
      DeliverUpToKeepsWindows(world, db, app, h, n - 1);
      DeliverKeepsWindows(world, DeliverUpTo(world, db, app, h, n - 1), app, h, n - 1);
    }
  }
}
