/** Several applications sharing the tables (internal/evmreader/input.go, ReadAndStoreInputs).

    The reader goes through the applications of a batch in the order in which Go walks a map. What an
    application ends up with does not depend on that order, or on which others are in the batch. */
module ManyApps {
  import opened Model
  import opened Tables
  import opened World
  import opened Ingest
  import opened Ledger
  import opened IngestRefinement

  predicate LengthsKnown(world: World, apps: seq<Address>) {
    forall k | 0 <= k < |apps| :: world.epochLength(apps[k]) >= 1
  }

  /** The batch for each application in turn. */
  function IngestAll(world: World, db: Db, order: seq<Address>, startBlock: nat, endBlock: nat): Db
    requires LengthsKnown(world, order)
  {
    if order == [] then db
    else
      var n := |order| - 1;
      IngestBatch(world, IngestAll(world, db, order[..n], startBlock, endBlock), order[n],
                  startBlock, endBlock)
  }

  /** Someone else's step leaves an application's part of the tables alone. */
  lemma OthersUntouched(world: World, before: Db, after: Db, app: Address, other: Address, cursor: nat)
    requires SameElsewhere(before, after, app) && other != app
    requires AppInvariant(world, before, other, cursor)
    ensures AppInvariant(world, after, other, cursor)
    ensures LedgerOf(after, other) == LedgerOf(before, other).(nonces := after.nonces)
    ensures after.apps[other] == before.apps[other]
  {
    RowElsewhere(before, after, app, other);
    assert Counter(after, other) == Counter(before, other);
    forall i: nat ensures (other, i) in after.inputs <==> i < Counter(after, other) {
      assert (other, i) in before.inputs <==> (other, i) in after.inputs;
    }
    forall x: nat ensures x in EpochsOf(after, other) <==> x in EpochsOf(before, other) {
      assert x in EpochsOf(after, other) <==> (other, x) in after.epochs;
      assert x in EpochsOf(before, other) <==> (other, x) in before.epochs;
    }
  }

  lemma RowElsewhere(before: Db, after: Db, app: Address, other: Address)
    requires SameElsewhere(before, after, app) && other != app
    ensures other in after.apps <==> other in before.apps
    ensures other in before.apps ==> after.apps[other] == before.apps[other]
    ensures Counter(after, other) == Counter(before, other)
  {
    assert other in before.apps ==> before.apps[other] == (before.apps - {app})[other];
    assert other in after.apps ==> after.apps[other] == (after.apps - {app})[other];
    assert other in before.apps <==> other in before.apps - {app};
    assert other in after.apps <==> other in after.apps - {app};
    assert other in before.counters <==> other in before.counters - {app};
    assert other in after.counters <==> other in after.counters - {app};
  }

  ghost predicate ReadyFor(world: World, db: Db, app: Address, from: nat) {
    GoodWorld(world, app) && AppInvariant(world, db, app, from)
  }

  /** An application of the batch grows by its own inputs, any other is left as it was. */
  lemma {:induction false} IngestAllRefines(
    world: World, db: Db, order: seq<Address>, from: nat, to: nat, app: Address)
    requires NoDuplicates(order) && LengthsKnown(world, order) && from < to
    requires forall a | a in order :: ReadyFor(world, db, a, from)
    requires forall a | a in order :: world.inputStoreFault(a, to).None?
    requires ReadyFor(world, db, app, from)
    ensures var after := IngestAll(world, db, order, from + 1, to);
            && after.nonces == db.nonces
            && AppInvariant(world, after, app, if app in order then to else from)
            && LedgerOf(after, app)
                 == if app in order then L1Advance(world, app, LedgerOf(db, app), from, to)
                    else LedgerOf(db, app)
  {
    if order != [] {
      var front, last := order[..|order| - 1], order[|order| - 1];
      assert order == front + [last] && last in order && last !in front;
      var before := IngestAll(world, db, front, from + 1, to);
      IngestAllRefines(world, db, front, from, to, app);
      IngestAllRefines(world, db, front, from, to, last);
      OneMoreApp(world, before, last, from, to, app, if app in front then to else from);
    }
  }

  lemma OneMoreApp(
    world: World, db: Db, last: Address, from: nat, to: nat, app: Address, cursor: nat)
    requires ReadyFor(world, db, last, from) && from < to
    requires world.inputStoreFault(last, to).None?
    requires AppInvariant(world, db, app, cursor) && (app == last ==> cursor == from)
    ensures var after := IngestBatch(world, db, last, from + 1, to);
            && after.nonces == db.nonces
            && AppInvariant(world, after, app, if app == last then to else cursor)
            && LedgerOf(after, app)
                 == if app == last then L1Advance(world, app, LedgerOf(db, app), from, to)
                    else LedgerOf(db, app)
  {
    hide IngestBatch, L1Advance, AppInvariant;
    var after := IngestBatch(world, db, last, from + 1, to);
    IngestRefines(world, db, last, from, to);
    NoncesStay(world, db, last, from, to);
    if app != last {
      OthersUntouched(world, db, after, last, app, cursor);
    }
  }

  lemma NoncesStay(world: World, db: Db, app: Address, from: nat, to: nat)
    requires ReadyFor(world, db, app, from) && from < to
    requires world.inputStoreFault(app, to).None?
    ensures IngestBatch(world, db, app, from + 1, to).nonces == db.nonces
  {
    IngestClosedForm(world, db, app, from, to);
  }

  // ---- batches touch only their application's epochs, well-formed or not ----

  predicate UpsertsOnly(stmts: seq<Stmt>, app: Address) {
    forall k | 0 <= k < |stmts| && stmts[k].UpsertEpoch? :: stmts[k].epoch.app == app
  }

  lemma {:induction false} RunKeepsOtherEpochs(db: Db, stmts: seq<Stmt>, app: Address)
    requires UpsertsOnly(stmts, app)
    ensures var after := Run(Some(db), stmts);
            after.Some? ==> SameEpochsElsewhere(db, after.value, app)
  {
    hide Exec, SameEpochsElsewhere;
    SameEpochs(db, db, app);
    if stmts != [] {
      var front, last := stmts[..|stmts| - 1], stmts[|stmts| - 1];
      RunKeepsOtherEpochs(db, front, app);
      var before := Run(Some(db), front);
      if before.Some? {
        ExecKeepsOtherEpochs(db, before.value, last, app);
      }
    }
  }

  lemma ExecKeepsOtherEpochs(db: Db, before: Db, s: Stmt, app: Address)
    requires SameEpochsElsewhere(db, before, app)
    requires s.UpsertEpoch? ==> s.epoch.app == app
    ensures Exec(before, s).Some? ==> SameEpochsElsewhere(db, Exec(before, s).value, app)
  {
  }

  lemma {:induction false} EntriesUpsert(entries: seq<Entry>, app: Address)
    requires OfApp(entries, app)
    ensures UpsertsOnly(EntriesStmts(entries), app)
  {
    if entries != [] {
      EntriesUpsert(entries[..|entries| - 1], app);
    }
  }

  lemma BatchKeepsOtherEpochs(world: World, db: Db, app: Address, startBlock: nat, endBlock: nat)
    requires world.epochLength(app) >= 1
    requires OfApp(BatchEntries(world, db, app, startBlock, endBlock), app)
    ensures SameEpochsElsewhere(db, IngestBatch(world, db, app, startBlock, endBlock), app)
  {
    hide SameEpochsElsewhere, BatchEntries, InputsIn;
    var entries := BatchEntries(world, db, app, startBlock, endBlock);
    var counted :=
      AdvanceCounter(db, app, |InputsIn(world.inputsAdded, app, startBlock, endBlock)|);
    EntriesUpsert(entries, app);
    StoreKeepsOtherEpochs(counted, entries, endBlock, app);
    SameEpochs(db, db, app);
    SameEpochs(db, counted, app);
    var stored := StoreEntries(counted, entries, endBlock, app);
    if stored.Some? {
      SameEpochsThrough(db, counted, stored.value, app);
    }
  }

  lemma SameEpochs(a: Db, b: Db, app: Address)
    requires a.epochs == b.epochs
    ensures SameEpochsElsewhere(a, b, app)
  {
  }

  lemma SameEpochsThrough(a: Db, b: Db, c: Db, app: Address)
    requires a.epochs == b.epochs && SameEpochsElsewhere(b, c, app)
    ensures SameEpochsElsewhere(a, c, app)
  {
  }

  lemma StoreKeepsOtherEpochs(db: Db, entries: seq<Entry>, block: nat, app: Address)
    requires UpsertsOnly(EntriesStmts(entries), app)
    ensures var after := StoreEntries(db, entries, block, app);
            after.Some? ==> SameEpochsElsewhere(db, after.value, app)
  {
    RunKeepsOtherEpochs(db, EntriesStmts(entries), app);
  }

  lemma WindowsElsewhere(world: World, before: Db, after: Db, app: Address, other: Address)
    requires SameEpochsElsewhere(before, after, app) && other != app
    requires CanonicalWindows(world, before, other)
    ensures CanonicalWindows(world, after, other)
  {
  }
}
