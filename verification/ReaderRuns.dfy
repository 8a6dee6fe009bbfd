/** What the reader itself does is a run of `Interleaving`, so its invariant holds between any two
    blocks, and after any number of passes of Run. */
module ReaderRuns {
  import opened Model
  import opened Tables
  import opened World
  import opened Ingest
  import opened Ledger
  import opened IngestRefinement
  import opened EspressoInput
  import opened Claims
  import opened ClaimCursor
  import opened Outputs
  import opened CatchUp
  import opened LogFacts
  import opened ReaderSteps
  import opened Coverage
  import opened Interleaving
  import opened RunRefinement

  /** A snapshot of the application's row, taken some time ago. */
  predicate Snapshot(db: Db, app: Address, snapshot: AppRow) {
    && app in db.apps
    && snapshot.lastClaimCheckBlock <= db.apps[app].lastClaimCheckBlock
    && snapshot.lastOutputCheckBlock <= db.apps[app].lastOutputCheckBlock
  }

  /** readL1 is up to three actions: inputs, claims, outputs. */
  lemma ReadL1KeepsInvariant(
    world: World, app: Address, boxes: seq<nat>, first: nat, db: Db, snapshot: AppRow, h: nat,
    cursor: nat)
    requires Environment(world, app) && Invariant(world, app, boxes, first, State(db, cursor))
    requires Snapshot(db, app, snapshot) && cursor <= world.l1FinalizedHeight(h)
    requires world.inputStoreFault(app, world.l1FinalizedHeight(h)).None?
    ensures var after := ReadL1(world, db, app, snapshot, h, cursor);
            && Invariant(world, app, boxes, first, State(after, world.l1FinalizedHeight(h)))
            && Snapshot(after, app, snapshot)
  {
    hide Environment, Invariant, IngestBatch, CheckClaims, CheckOutputs;
    KnownLength(world, app, boxes, first, State(db, cursor));
    var f := world.l1FinalizedHeight(h);
    if cursor < f {
      var s := State(db, cursor);
      StepKeepsInvariant(world, app, boxes, first, s, ReadBaseLayer(f));
      BatchKeepsSnapshot(world, app, boxes, first, db, snapshot, cursor, f);
      var t := State(IngestBatch(world, db, app, cursor + 1, f), f);
      KnownLength(world, app, boxes, first, t);
      StepKeepsInvariant(world, app, boxes, first, t,
                         CheckClaimsFrom(snapshot.lastClaimCheckBlock, f));
      ClaimsKeepSnapshot(world, app, boxes, first, t, snapshot);
      var u := State(CheckClaims(world, t.db, app, snapshot.lastClaimCheckBlock, f), f);
      KnownLength(world, app, boxes, first, u);
      StepKeepsInvariant(world, app, boxes, first, u,
                         CheckOutputsFrom(snapshot.lastOutputCheckBlock, f));
      OutputsKeepSnapshot(world, app, boxes, first, u, snapshot);
    }
  }

  lemma KnownLength(world: World, app: Address, boxes: seq<nat>, first: nat, s: State)
    requires Invariant(world, app, boxes, first, s)
    ensures world.epochLength(app) >= 1 && app in s.db.apps
  {
    hide GoodLog, BoxIndices, EventsRead, ClaimCursorSafe, OutputCursorComplete;
    InvariantBasics(world, s.db, app, s.cursor);
  }

  lemma BatchKeepsSnapshot(
    world: World, app: Address, boxes: seq<nat>, first: nat, db: Db, snapshot: AppRow, cursor: nat,
    f: nat)
    requires Environment(world, app) && Invariant(world, app, boxes, first, State(db, cursor))
    requires Snapshot(db, app, snapshot) && cursor < f && world.inputStoreFault(app, f).None?
    ensures Snapshot(IngestBatch(world, db, app, cursor + 1, f), app, snapshot)
  {
    hide AppInvariant, GoodLog, BoxIndices, EventsRead, ClaimCursorSafe, OutputCursorComplete,
      IngestBatch, GoodWorld, ClaimsInBlockOrder, ClaimsComeLater, HonestNode;
    ReadLeavesCursors(world, app, State(db, cursor), f);
  }

  lemma ClaimsKeepSnapshot(
    world: World, app: Address, boxes: seq<nat>, first: nat, s: State, snapshot: AppRow)
    requires Environment(world, app) && Invariant(world, app, boxes, first, s)
    requires Snapshot(s.db, app, snapshot)
    ensures Snapshot(CheckClaims(world, s.db, app, snapshot.lastClaimCheckBlock, s.cursor), app,
                     snapshot)
  {
    hide AppInvariant, GoodLog, BoxIndices, EventsRead, OutputCursorComplete, CheckClaims,
      ClaimsInBlockOrder, ClaimsComeLater, HonestNode;
    CheckClaimsKeepsCursorSafe(world, s.db, app, snapshot.lastClaimCheckBlock, s.cursor);
    ClaimsKeepOutputCursor(world, s.db, app, snapshot.lastClaimCheckBlock, s.cursor);
    ClaimsAreQuiet(world, s.db, app, snapshot.lastClaimCheckBlock, s.cursor);
  }

  lemma OutputsKeepSnapshot(
    world: World, app: Address, boxes: seq<nat>, first: nat, s: State, snapshot: AppRow)
    requires Environment(world, app) && Invariant(world, app, boxes, first, s)
    requires Snapshot(s.db, app, snapshot)
    ensures Snapshot(CheckOutputs(world, s.db, app, snapshot.lastOutputCheckBlock, s.cursor), app,
                     snapshot)
  {
    hide AppInvariant, GoodLog, BoxIndices, EventsRead, ClaimCursorSafe, CheckOutputs,
      ClaimsInBlockOrder, ClaimsComeLater, HonestNode, MarkedThrough, Blocked;
    CheckOutputsKeepsComplete(world, s.db, app, snapshot.lastOutputCheckBlock, s.cursor);
    PassIsAllOrNothing(world, s.db, app, snapshot.lastOutputCheckBlock, s.cursor);
  }

  lemma {:induction false} DeliverUpToKeepsInvariant(
    world: World, app: Address, boxes: seq<nat>, first: nat, db: Db, snapshot: AppRow, h: nat, n: nat)
    requires Environment(world, app) && n <= |world.transactions(h)|
    requires Invariant(world, app, boxes, first, State(db, world.l1FinalizedHeight(h)))
    requires Snapshot(db, app, snapshot) && world.epochLength(app) >= 1
    ensures var after := DeliverUpTo(world, db, app, h, n);
            && Invariant(world, app, boxes, first, State(after, world.l1FinalizedHeight(h)))
            && Snapshot(after, app, snapshot)
  {
    hide Environment, Invariant, DeliverTx;
    if n > 0 {
      DeliverUpToKeepsInvariant(world, app, boxes, first, db, snapshot, h, n - 1);
      var s := State(DeliverUpTo(world, db, app, h, n - 1), world.l1FinalizedHeight(h));
      KnownLength(world, app, boxes, first, s);
      StepKeepsInvariant(world, app, boxes, first, s, DeliverTransaction(h, n - 1));
      DeliverKeepsSnapshot(world, app, boxes, first, s, snapshot, h, n - 1);
    }
  }

  lemma DeliverKeepsSnapshot(
    world: World, app: Address, boxes: seq<nat>, first: nat, s: State, snapshot: AppRow, h: nat,
    i: nat)
    requires Invariant(world, app, boxes, first, s) && Snapshot(s.db, app, snapshot)
    requires world.l1FinalizedHeight(h) == s.cursor && i < |world.transactions(h)|
    requires world.epochLength(app) >= 1
    ensures Snapshot(DeliverTx(world, s.db, app, h, i), app, snapshot)
  {
    hide AppInvariant, GoodLog, BoxIndices, EventsRead, ClaimCursorSafe, OutputCursorComplete,
      DeliverTx;
    DeliverLeavesCursors(world, app, s, h, i);
  }

  /** Visiting a block, from any snapshot of the row that is not ahead of it. */
  lemma VisitKeepsInvariant(
    world: World, app: Address, boxes: seq<nat>, first: nat, db: Db, snapshot: AppRow, h: nat,
    cursor: nat)
    requires Environment(world, app) && Invariant(world, app, boxes, first, State(db, cursor))
    requires Snapshot(db, app, snapshot) && cursor <= world.l1FinalizedHeight(h)
    requires world.inputStoreFault(app, world.l1FinalizedHeight(h)).None?
    requires world.epochLength(app) >= 1
    ensures var after := Visit(world, db, app, snapshot, h, cursor);
            && Invariant(world, app, boxes, first, State(after, world.l1FinalizedHeight(h)))
            && Snapshot(after, app, snapshot)
  {
    hide Environment, Invariant, ReadL1, DeliverUpTo, Snapshot;
    ReadL1KeepsInvariant(world, app, boxes, first, db, snapshot, h, cursor);
    DeliverUpToKeepsInvariant(world, app, boxes, first,
                              ReadL1(world, db, app, snapshot, h, cursor), snapshot, h,
                              |world.transactions(h)|);
  }

  lemma MarkKeepsInvariant(
    world: World, app: Address, boxes: seq<nat>, first: nat, s: State, snapshot: AppRow,
    mark: Option<nat>)
    requires Environment(world, app) && Invariant(world, app, boxes, first, s)
    requires Snapshot(s.db, app, snapshot)
    ensures Invariant(world, app, boxes, first, s.(db := StoreMark(s.db, app, mark)))
    ensures Snapshot(StoreMark(s.db, app, mark), app, snapshot)
  {
    hide Environment, Invariant;
    KnownLength(world, app, boxes, first, s);
    StepKeepsInvariant(world, app, boxes, first, s, SomeoneElse(StoreMark(s.db, app, mark)));
  }

  lemma {:induction false} VisitAllKeepsInvariant(
    world: World, app: Address, boxes: seq<nat>, first: nat, db: Db, snapshot: AppRow, hs: seq<nat>,
    cursor: nat, mark: Option<nat>)
    requires Environment(world, app) && Invariant(world, app, boxes, first, State(db, cursor))
    requires Snapshot(db, app, snapshot) && world.epochLength(app) >= 1
    requires RisesOver(world, hs, cursor) && StoresSucceed(world, app, hs)
    ensures var after := VisitAll(world, db, app, snapshot, hs, cursor, mark);
            && Invariant(world, app, boxes, first, State(after, CursorOver(world, hs, cursor)))
            && Snapshot(after, app, snapshot)
  {
    hide Environment, Invariant, Visit, StoreMark, Snapshot;
    if hs != [] {
      var front, h := hs[..|hs| - 1], hs[|hs| - 1];
      VisitAllKeepsInvariant(world, app, boxes, first, db, snapshot, front, cursor, mark);
      var before := VisitAll(world, db, app, snapshot, front, cursor, mark);
      var middle := CursorOver(world, front, cursor);
      VisitKeepsInvariant(world, app, boxes, first, before, snapshot, h, middle);
      MarkKeepsInvariant(world, app, boxes, first,
                         State(Visit(world, before, app, snapshot, h, middle),
                               world.l1FinalizedHeight(h)), snapshot, mark);
    }
  }

  /** The state of an application between two passes of Run. */
  ghost predicate BetweenPasses(
    world: World, app: Address, boxes: seq<nat>, first: nat, db: Db)
  {
    app in db.apps && Invariant(world, app, boxes, first, State(db, ResumesAt(world, db, app)))
  }

  lemma PassKeepsInvariant(
    world: World, app: Address, boxes: seq<nat>, first: nat, db: Db, latest: nat)
    requires Environment(world, app) && BetweenPasses(world, app, boxes, first, db)
    requires world.epochLength(app) >= 1
    requires var hs := PassVisits(world, latest, EspressoBlock(db, app));
             RisesOver(world, hs, ResumesAt(world, db, app)) && StoresSucceed(world, app, hs)
    ensures BetweenPasses(world, app, boxes, first,
                          AppPass(world, db, app, db.apps[app], latest))
  {
    hide Environment, Invariant, VisitAll, CursorOver, RisesOver, StoresSucceed, PassVisits,
      StartCursor, StoreMark;
    var last, from, snapshot := EspressoBlock(db, app), ResumesAt(world, db, app), db.apps[app];
    var hs := PassVisits(world, latest, last);
    var mark := if CatchesUp(latest, last) then None else Some(latest);
    var final := if CatchesUp(latest, last) then Some(latest) else None;
    VisitAllKeepsInvariant(world, app, boxes, first, db, snapshot, hs, from, mark);
    var visited := VisitAll(world, db, app, snapshot, hs, from, mark);
    MarkKeepsInvariant(world, app, boxes, first, State(visited, CursorOver(world, hs, from)),
                       snapshot, final);
    Unmarked(visited, app, latest);
    PassEnvironment(world, app, boxes, first, db);
    PassRefines(world, db, app, latest);
    var after := AppPass(world, db, app, snapshot, latest);
    assert after == StoreMark(visited, app, final);
    assert State(visited, CursorOver(world, hs, from)).(db := after)
        == State(after, ResumesAt(world, after, app));
  }

  lemma Unmarked(db: Db, app: Address, latest: nat)
    ensures StoreMark(db, app, None) == db
    ensures StoreMark(db, app, Some(latest)) == SetEspressoBlock(db, app, latest)
  {
  }

  lemma PassEnvironment(world: World, app: Address, boxes: seq<nat>, first: nat, db: Db)
    requires Environment(world, app) && BetweenPasses(world, app, boxes, first, db)
    ensures GoodWorld(world, app) && AppInvariant(world, db, app, ResumesAt(world, db, app))
  {
    hide AppInvariant, GoodLog, BoxIndices, EventsRead, ClaimCursorSafe, OutputCursorComplete,
      ResumesAt;
  }

  /** So the tables Run leaves behind have every property of `Invariant`: indices and counter, order,
      conservation, calldata, horizon, claim cursor and output cursor. */
  lemma {:induction false} RunKeepsInvariant(
    world: World, app: Address, boxes: seq<nat>, first: nat, db: Db, heights: seq<nat>)
    requires Environment(world, app) && BetweenPasses(world, app, boxes, first, db)
    requires world.epochLength(app) >= 1
    requires var hs := RunVisits(world, heights, EspressoBlock(db, app));
             RisesOver(world, hs, ResumesAt(world, db, app)) && StoresSucceed(world, app, hs)
    ensures BetweenPasses(world, app, boxes, first, RunPasses(world, db, app, heights))
  {
    hide Environment, Invariant, CursorOver, RisesOver, StoresSucceed, PassVisits, ResumesAt, AppPass,
      AppInvariant, ProgressOver;
    if heights != [] {
      var front, latest := heights[..|heights| - 1], heights[|heights| - 1];
      var last, from := EspressoBlock(db, app), ResumesAt(world, db, app);
      var a, b := RunVisits(world, front, last), PassVisits(world, latest, RunCursor(front, last));
      RisesAppend(world, a, b, from);
      SucceedAppend(world, app, a, b);
      RunKeepsInvariant(world, app, boxes, first, db, front);
      PassEnvironment(world, app, boxes, first, db);
      RunRefines(world, db, app, front);
      PassKeepsInvariant(world, app, boxes, first, RunPasses(world, db, app, front), latest);
    }
  }
}
