/** What the reader does at one Espresso block, and over a list of blocks, as steps on the tables
    (internal/espressoreader/espresso_reader.go, readL1, readEspresso and the two loops around them).

    The main result is that on the ledger of the application these steps are those of `CatchUp`. */
module ReaderSteps {
  import opened Model
  import opened Tables
  import opened World
  import opened Ingest
  import opened Ledger
  import opened IngestRefinement
  import opened EspressoInput
  import opened EspressoRefinement
  import opened CatchUp
  import opened Claims
  import opened Outputs

  /** If the finalized height is above the local cursor: inputs, claims and outputs up to it. Claims
      and outputs start from a snapshot of the application's row, which may be old. */
  function ReadL1(
    world: World, db: Db, app: Address, snapshot: AppRow, h: nat, lastProcessedL1Block: nat): Db
    requires world.epochLength(app) >= 1
  {
    var f := world.l1FinalizedHeight(h);
    if f <= lastProcessedL1Block then db
    else
      var ingested := IngestBatch(world, db, app, lastProcessedL1Block + 1, f);
      var claimed := CheckClaims(world, ingested, app, snapshot.lastClaimCheckBlock, f);
      CheckOutputs(world, claimed, app, snapshot.lastOutputCheckBlock, f)
  }

  function Visit(world: World, db: Db, app: Address, snapshot: AppRow, h: nat, cursor: nat): Db
    requires world.epochLength(app) >= 1
  {
    DeliverBlock(world, ReadL1(world, db, app, snapshot, h, cursor), app, h)
  }

  /** The local cursor after visiting some blocks. */
  function CursorOver(world: World, hs: seq<nat>, cursor: nat): nat {
    if hs == [] then cursor else world.l1FinalizedHeight(hs[|hs| - 1])
  }

  function StoreMark(db: Db, app: Address, mark: Option<nat>): Db {
    match mark
    case None => db
    case Some(block) => SetEspressoBlock(db, app, block)
  }

  /** Visit some blocks one after the other. The in-sync loop stores its Espresso cursor after each. */
  function VisitAll(
    world: World, db: Db, app: Address, snapshot: AppRow, hs: seq<nat>, cursor: nat,
    mark: Option<nat>): Db
    requires world.epochLength(app) >= 1
  {
    if hs == [] then db
    else
      var front, h := hs[..|hs| - 1], hs[|hs| - 1];
      var before := VisitAll(world, db, app, snapshot, front, cursor, mark);
      StoreMark(Visit(world, before, app, snapshot, h, CursorOver(world, front, cursor)), app, mark)
  }

  // ---- steps that leave an application's ledger alone ----

  /** The inputs, the counter and the cursor of `app` are the same, its epochs are the same but for
      the statuses of those that are not open. */
  ghost predicate Quiet(before: Db, after: Db, app: Address) {
    && (app in before.apps ==> app in after.apps)
    && (app in before.apps ==>
          after.apps[app].lastProcessedBlock == before.apps[app].lastProcessedBlock)
    && (forall key: InputKey | key.0 == app ::
          (key in before.inputs <==> key in after.inputs)
          && (key in before.inputs ==> after.inputs[key] == before.inputs[key]))
    && Counter(after, app) == Counter(before, app)
    && (forall key: EpochKey | key.0 == app :: key in before.epochs <==> key in after.epochs)
    && (forall key: EpochKey | key.0 == app && key in before.epochs ::
          && after.epochs[key].firstBlock == before.epochs[key].firstBlock
          && after.epochs[key].lastBlock == before.epochs[key].lastBlock
          && (before.epochs[key].status == Open ==> after.epochs[key].status == Open))
  }

  lemma QuietKeeps(world: World, before: Db, after: Db, app: Address, cursor: nat)
    requires AppInvariant(world, before, app, cursor) && Quiet(before, after, app)
    ensures AppInvariant(world, after, app, cursor)
    ensures LedgerOf(after, app) == LedgerOf(before, app).(nonces := after.nonces)
  {
    forall i: nat ensures (app, i) in after.inputs <==> i < Counter(after, app) {
      assert (app, i) in before.inputs <==> (app, i) in after.inputs;
    }
    forall x: nat ensures x in EpochsOf(after, app) <==> x in EpochsOf(before, app) {
      assert x in EpochsOf(after, app) <==> (app, x) in after.epochs;
      assert x in EpochsOf(before, app) <==> (app, x) in before.epochs;
    }
  }

  lemma ClaimsAreQuiet(world: World, db: Db, app: Address, lastClaimCheck: nat, mostRecent: nat)
    requires world.epochLength(app) >= 1
    ensures var after := CheckClaims(world, db, app, lastClaimCheck, mostRecent);
            && Quiet(db, after, app) && after.nonces == db.nonces
            && after.espressoBlocks == db.espressoBlocks && after.outputs == db.outputs
  {
    hide ClaimPass, ClaimEvents;
    var start := ClaimStart(world, lastClaimCheck);
    if mostRecent > start {
      var events := ClaimEvents(world, app, start + 1, mostRecent);
      ClaimsAreOfApp(world, app, start + 1, mostRecent);
      PassTouchesOnlyClaims(world, db, app, mostRecent, events, 0);
    }
  }

  lemma OutputsAreQuiet(world: World, db: Db, app: Address, lastOutputCheck: nat, mostRecent: nat)
    requires app in db.apps
    ensures var after := CheckOutputs(world, db, app, lastOutputCheck, mostRecent);
            && Quiet(db, after, app) && after.nonces == db.nonces
            && after.espressoBlocks == db.espressoBlocks
  {
    PassIsAllOrNothing(world, db, app, lastOutputCheck, mostRecent);
  }

  // ---- no step removes the application ----

  lemma {:induction false} RunKeepsApps(db: Db, stmts: seq<Stmt>)
    ensures Run(Some(db), stmts).Some? ==>
              Run(Some(db), stmts).value.apps == db.apps
              && Run(Some(db), stmts).value.outputs == db.outputs
  {
    if stmts != [] {
      RunKeepsApps(db, stmts[..|stmts| - 1]);
    }
  }

  lemma ReadL1KeepsApp(
    world: World, db: Db, app: Address, snapshot: AppRow, h: nat, cursor: nat)
    requires world.epochLength(app) >= 1 && app in db.apps
    ensures app in ReadL1(world, db, app, snapshot, h, cursor).apps
  {
    hide BatchEntries, InputsIn, CheckClaims, CheckOutputs, Run;
    var f := world.l1FinalizedHeight(h);
    if f > cursor {
      RunKeepsApps(AdvanceCounter(db, app, |InputsIn(world.inputsAdded, app, cursor + 1, f)|),
                   EntriesStmts(BatchEntries(world, db, app, cursor + 1, f)));
      var ingested := IngestBatch(world, db, app, cursor + 1, f);
      ClaimsAreQuiet(world, ingested, app, snapshot.lastClaimCheckBlock, f);
      OutputsAreQuiet(world, CheckClaims(world, ingested, app, snapshot.lastClaimCheckBlock, f), app,
                      snapshot.lastOutputCheckBlock, f);
    }
  }

  lemma {:induction false} DeliverKeepsApp(world: World, db: Db, app: Address, h: nat, n: nat)
    requires world.epochLength(app) >= 1 && n <= |world.transactions(h)| && app in db.apps
    ensures app in DeliverUpTo(world, db, app, h, n).apps
  {
    hide Admissible, EspressoEntries, Run;
    if n > 0 {
      var before := DeliverUpTo(world, db, app, h, n - 1);
      DeliverKeepsApp(world, db, app, h, n - 1);
      if Admissible(world, app, before.nonces, h, n - 1) {
        RunKeepsApps(before, EntriesStmts(EspressoEntries(world, before, app, h, n - 1)));
      }
    }
  }

  lemma {:induction false} VisitAllKeepsApp(
    world: World, db: Db, app: Address, snapshot: AppRow, hs: seq<nat>, cursor: nat,
    mark: Option<nat>)
    requires world.epochLength(app) >= 1 && app in db.apps
    ensures app in VisitAll(world, db, app, snapshot, hs, cursor, mark).apps
  {
    hide ReadL1, DeliverUpTo;
    if hs != [] {
      var front, h := hs[..|hs| - 1], hs[|hs| - 1];
      VisitAllKeepsApp(world, db, app, snapshot, front, cursor, mark);
      var before := VisitAll(world, db, app, snapshot, front, cursor, mark);
      var from := CursorOver(world, front, cursor);
      ReadL1KeepsApp(world, before, app, snapshot, h, from);
      DeliverKeepsApp(world, ReadL1(world, before, app, snapshot, h, from), app, h,
                      |world.transactions(h)|);
    }
  }

  // ---- one block ----

  /** The stored cursor is at the local one, or as it was if the local one has not moved. */
  predicate CursorStored(db: Db, app: Address, from: nat, to: nat, before: Db) {
    && app in db.apps && app in before.apps
    && (|| db.apps[app].lastProcessedBlock == to
        || (from == to
            && db.apps[app].lastProcessedBlock == before.apps[app].lastProcessedBlock))
  }

  lemma ReadL1Refines(
    world: World, db: Db, app: Address, snapshot: AppRow, h: nat, cursor: nat)
    requires GoodWorld(world, app) && AppInvariant(world, db, app, cursor)
    requires cursor <= world.l1FinalizedHeight(h)
    requires world.inputStoreFault(app, world.l1FinalizedHeight(h)).None?
    ensures var after := ReadL1(world, db, app, snapshot, h, cursor);
            var f := world.l1FinalizedHeight(h);
            && AppInvariant(world, after, app, f)
            && LedgerOf(after, app) == L1Advance(world, app, LedgerOf(db, app), cursor, f)
            && CursorStored(after, app, cursor, f, db)
  {
    var f := world.l1FinalizedHeight(h);
    if cursor < f {
      var ingested := IngestBatch(world, db, app, cursor + 1, f);
      var claimed := CheckClaims(world, ingested, app, snapshot.lastClaimCheckBlock, f);
      var after := CheckOutputs(world, claimed, app, snapshot.lastOutputCheckBlock, f);
      IngestRefines(world, db, app, cursor, f);
      hide AppInvariant, IngestBatch, CheckClaims, CheckOutputs, L1Advance, LedgerOf;
      ClaimsAreQuiet(world, ingested, app, snapshot.lastClaimCheckBlock, f);
      QuietKeeps(world, ingested, claimed, app, f);
      OutputsAreQuiet(world, claimed, app, snapshot.lastOutputCheckBlock, f);
      QuietKeeps(world, claimed, after, app, f);
    }
  }

  lemma {:induction false} DeliverCursor(world: World, db: Db, app: Address, h: nat, n: nat)
    requires n <= |world.transactions(h)|
    requires AppInvariant(world, db, app, world.l1FinalizedHeight(h))
    ensures var after := DeliverUpTo(world, db, app, h, n);
            && app in after.apps
            && (|| after.apps[app].lastProcessedBlock == db.apps[app].lastProcessedBlock
                || after.apps[app].lastProcessedBlock == world.l1FinalizedHeight(h))
  {
    hide AppInvariant, DeliverTx, Accepts, LedgerOf, Dense;
    InvariantBasics(world, db, app, world.l1FinalizedHeight(h));
    if n > 0 {
      var before := DeliverUpTo(world, db, app, h, n - 1);
      DeliverCursor(world, db, app, h, n - 1);
      DeliverUpToRefines(world, db, app, h, n - 1);
      InvariantBasics(world, before, app, world.l1FinalizedHeight(h));
      DeliverFrame(world, before, app, h, n - 1);
    }
  }

  /** Visiting a block on the tables is visiting it on the ledger. */
  lemma VisitRefines(world: World, db: Db, app: Address, snapshot: AppRow, h: nat, cursor: nat)
    requires GoodWorld(world, app) && AppInvariant(world, db, app, cursor)
    requires cursor <= world.l1FinalizedHeight(h)
    requires world.inputStoreFault(app, world.l1FinalizedHeight(h)).None?
    ensures var after := Visit(world, db, app, snapshot, h, cursor);
            var f := world.l1FinalizedHeight(h);
            && AppInvariant(world, after, app, f)
            && Progress(LedgerOf(after, app), f)
                 == VisitBlock(world, app, Progress(LedgerOf(db, app), cursor), h)
            && CursorStored(after, app, cursor, f, db)
  {
    var read := ReadL1(world, db, app, snapshot, h, cursor);
    ReadL1Refines(world, db, app, snapshot, h, cursor);
    DeliverUpToRefines(world, read, app, h, |world.transactions(h)|);
    DeliverCursor(world, read, app, h, |world.transactions(h)|);
  }

  // ---- many blocks ----

  /** The finalized height does not fall from one visited block to the next, nor below the cursor. */
  ghost predicate RisesOver(world: World, hs: seq<nat>, cursor: nat) {
    && (forall k | 0 <= k < |hs| :: cursor <= world.l1FinalizedHeight(hs[k]))
    && (forall j, k | 0 <= j < k < |hs| ::
          world.l1FinalizedHeight(hs[j]) <= world.l1FinalizedHeight(hs[k]))
  }

  ghost predicate StoresSucceed(world: World, app: Address, hs: seq<nat>) {
    forall k | 0 <= k < |hs| :: world.inputStoreFault(app, world.l1FinalizedHeight(hs[k])).None?
  }

  function ProgressOver(world: World, app: Address, p: Progress, hs: seq<nat>): Progress
    requires world.epochLength(app) >= 1
  {
    if hs == [] then p
    else VisitBlock(world, app, ProgressOver(world, app, p, hs[..|hs| - 1]), hs[|hs| - 1])
  }

  /** What the reader has built after visiting these blocks, on the tables and on the ledger alike. */
  lemma {:induction false} VisitAllRefines(
    world: World, db: Db, app: Address, snapshot: AppRow, hs: seq<nat>, cursor: nat,
    mark: Option<nat>)
    requires GoodWorld(world, app) && AppInvariant(world, db, app, cursor)
    requires RisesOver(world, hs, cursor) && StoresSucceed(world, app, hs)
    ensures var after := VisitAll(world, db, app, snapshot, hs, cursor, mark);
            var end := CursorOver(world, hs, cursor);
            && AppInvariant(world, after, app, end)
            && Progress(LedgerOf(after, app), end)
                 == ProgressOver(world, app, Progress(LedgerOf(db, app), cursor), hs)
            && cursor <= end
            && CursorStored(after, app, cursor, end, db)
  {
    if hs != [] {
      var front, h := hs[..|hs| - 1], hs[|hs| - 1];
      var before := VisitAll(world, db, app, snapshot, front, cursor, mark);
      VisitAllRefines(world, db, app, snapshot, front, cursor, mark);
      var middle := CursorOver(world, front, cursor);
      assert middle <= world.l1FinalizedHeight(h);
      hide RisesOver, AppInvariant, Visit, VisitBlock, GoodWorld;
      VisitRefines(world, before, app, snapshot, h, middle);
      var visited := Visit(world, before, app, snapshot, h, middle);
      MarkingIsQuiet(world, visited, app, mark, world.l1FinalizedHeight(h));
    }
  }

  lemma MarkingIsQuiet(world: World, db: Db, app: Address, mark: Option<nat>, cursor: nat)
    requires AppInvariant(world, db, app, cursor)
    ensures AppInvariant(world, StoreMark(db, app, mark), app, cursor)
    ensures LedgerOf(StoreMark(db, app, mark), app) == LedgerOf(db, app)
    ensures StoreMark(db, app, mark).apps == db.apps
  {
    QuietKeeps(world, db, StoreMark(db, app, mark), app, cursor);
  }

  // ---- the two loops ----

  /** from .. until-1. */
  function Blocks(from: nat, until: nat): seq<nat>
    decreases until
  {
    if until <= from then [] else Blocks(from, until - 1) + [until - 1]
  }

  lemma {:induction false} BlocksAre(from: nat, until: nat)
    ensures |Blocks(from, until)| == if from <= until then until - from else 0
    ensures forall k | 0 <= k < |Blocks(from, until)| :: Blocks(from, until)[k] == from + k
    decreases until
  {
    if from < until {
      BlocksAre(from, until - 1);
    }
  }

  lemma BlocksNext(from: nat, until: nat)
    ensures from <= until ==> Blocks(from, until + 1) == Blocks(from, until) + [until]
    ensures Blocks(from, from) == []
  {
  }

  lemma BlocksJoin(a: nat, b: nat, c: nat)
    requires a <= b <= c
    ensures Blocks(a, b) + Blocks(b, c) == Blocks(a, c)
  {
    BlocksAre(a, b);
    BlocksAre(b, c);
    BlocksAre(a, c);
  }

  /** Those of them with the namespace. */
  function BlocksWithNamespace(world: World, from: nat, until: nat): seq<nat>
    decreases until
  {
    if until <= from then []
    else
      var before := BlocksWithNamespace(world, from, until - 1);
      if HasNamespace(world, until - 1) then before + [until - 1] else before
  }

  /** They are the blocks with the namespace, in rising order. */
  lemma {:induction false} BlocksWithNamespaceAre(world: World, from: nat, until: nat)
    ensures var r := BlocksWithNamespace(world, from, until);
            && (forall h: nat :: h in r <==> from <= h < until && HasNamespace(world, h))
            && (forall k | 0 <= k < |r| :: from <= r[k] < until)
            && (forall j, k | 0 <= j < k < |r| :: r[j] < r[k])
    decreases until
  {
    hide HasNamespace;
    if from < until {
      BlocksWithNamespaceAre(world, from, until - 1);
    }
  }

  lemma NothingBefore(world: World, from: nat, until: nat)
    ensures until <= from ==> Blocks(from, until) == [] && BlocksWithNamespace(world, from, until) == []
  {
  }

  lemma {:induction false} SyncIsCatchUp(
    world: World, app: Address, p: Progress, from: nat, until: nat)
    requires world.epochLength(app) >= 1
    ensures ProgressOver(world, app, p, Blocks(from, until)) == InSync(world, app, p, from, until)
    decreases until
  {
    hide VisitBlock;
    if from < until {
      SyncIsCatchUp(world, app, p, from, until - 1);
      var front := Blocks(from, until - 1);
      assert (front + [until - 1])[..|front|] == front;
    }
  }

  lemma {:induction false} BootstrapIsCatchUp(
    world: World, app: Address, p: Progress, from: nat, until: nat)
    requires world.epochLength(app) >= 1
    ensures ProgressOver(world, app, p, BlocksWithNamespace(world, from, until))
         == Bootstrapped(world, app, p, from, until)
    decreases until
  {
    hide VisitBlock, HasNamespace;
    if from < until {
      BootstrapIsCatchUp(world, app, p, from, until - 1);
      var front := BlocksWithNamespace(world, from, until - 1);
      assert (front + [until - 1])[..|front|] == front;
    }
  }

  /** Bootstrapping against the in-sync loop, on the tables. Both keep the invariant; the rows
      bootstrapping stores are the first rows of the in-sync loop, under the same indices; the rows it
      is behind by are base-layer inputs; and it is not behind if the last block has the namespace. */
  lemma {:induction false} BootstrapTablesArePrefix(
    world: World, db: Db, app: Address, snapshot: AppRow, from: nat, until: nat, cursor: nat,
    mark: Option<nat>)
    requires GoodWorld(world, app) && AppInvariant(world, db, app, cursor)
    requires HeightsRise(world, cursor, from, until) && TablesComplete(world, from, until)
    requires StoresSucceed(world, app, Blocks(from, until))
    ensures var b := VisitAll(world, db, app, snapshot, BlocksWithNamespace(world, from, until),
                              cursor, None);
            var s := VisitAll(world, db, app, snapshot, Blocks(from, until), cursor, mark);
            && Dense(b, app) && Dense(s, app)
            && Counter(b, app) <= Counter(s, app)
            && (forall i: nat | i < Counter(b, app) :: b.inputs[(app, i)] == s.inputs[(app, i)])
            && (forall i: nat | Counter(b, app) <= i < Counter(s, app) :: FromBox(s.inputs[(app, i)]))
            && EpochsOf(b, app) <= EpochsOf(s, app) && b.nonces == s.nonces
            && (from < until && HasNamespace(world, until - 1) ==>
                  Counter(b, app) == Counter(s, app) && EpochsOf(b, app) == EpochsOf(s, app))
  {
    hide InSync, Bootstrapped, ProgressOver, HeightsRise, TablesComplete, RisesOver, StoresSucceed,
      VisitAll, GoodWorld, Blocks, BlocksWithNamespace;
    var all, some := Blocks(from, until), BlocksWithNamespace(world, from, until);
    var p := Progress(LedgerOf(db, app), cursor);
    VisitsRise(world, app, from, until, cursor);
    SyncIsCatchUp(world, app, p, from, until);
    BootstrapIsCatchUp(world, app, p, from, until);
    BootstrapLogIsPrefix(world, app, p, from, until);
    VisitAllRefines(world, db, app, snapshot, some, cursor, None);
    VisitAllRefines(world, db, app, snapshot, all, cursor, mark);
    SameRows(world, VisitAll(world, db, app, snapshot, some, cursor, None),
             VisitAll(world, db, app, snapshot, all, cursor, mark), app);
  }

  lemma SameRows(world: World, b: Db, s: Db, app: Address)
    requires Dense(b, app) && Dense(s, app)
    requires LedgerOf(b, app).log <= LedgerOf(s, app).log
    ensures Counter(b, app) <= Counter(s, app)
    ensures forall i: nat | i < Counter(b, app) :: b.inputs[(app, i)] == s.inputs[(app, i)]
    ensures forall i: nat | i < Counter(s, app) ::
              s.inputs[(app, i)] == LedgerOf(s, app).log[i]
  {
    var l, r := LedgerOf(b, app).log, LedgerOf(s, app).log;
    forall i: nat | i < Counter(b, app) ensures b.inputs[(app, i)] == s.inputs[(app, i)] {
      assert l[i] == r[i];
    }
  }

  lemma VisitsRise(world: World, app: Address, from: nat, until: nat, cursor: nat)
    requires HeightsRise(world, cursor, from, until)
    requires StoresSucceed(world, app, Blocks(from, until))
    ensures RisesOver(world, Blocks(from, until), cursor)
    ensures RisesOver(world, BlocksWithNamespace(world, from, until), cursor)
    ensures StoresSucceed(world, app, BlocksWithNamespace(world, from, until))
  {
    var all, some := Blocks(from, until), BlocksWithNamespace(world, from, until);
    BlocksAre(from, until);
    BlocksWithNamespaceAre(world, from, until);
    forall k | 0 <= k < |some|
      ensures world.inputStoreFault(app, world.l1FinalizedHeight(some[k])).None?
    {
      assert all[some[k] - from] == some[k];
    }
  }
}
