/** Whole runs of the reader for one application, pass after pass, whichever branch each takes. */
module RunRefinement {
  import opened Model
  import opened Tables
  import opened World
  import opened Ledger
  import opened IngestRefinement
  import opened EspressoRefinement
  import opened CatchUp
  import opened ReaderSteps
  import opened Coverage
  import opened LogFacts

  /** The blocks visited over a run. */
  function RunVisits(world: World, heights: seq<nat>, last: nat): seq<nat> {
    if heights == [] then []
    else
      var front, latest := heights[..|heights| - 1], heights[|heights| - 1];
      RunVisits(world, front, last) + PassVisits(world, latest, RunCursor(front, last))
  }

  lemma {:induction false} ProgressAppend(
    world: World, app: Address, p: Progress, a: seq<nat>, b: seq<nat>)
    requires world.epochLength(app) >= 1
    ensures ProgressOver(world, app, ProgressOver(world, app, p, a), b)
         == ProgressOver(world, app, p, a + b)
  {
    hide VisitBlock;
    if b == [] {
      assert a + b == a;
    } else {
      ProgressAppend(world, app, p, a, b[..|b| - 1]);
      assert (a + b)[..|a + b| - 1] == a + b[..|b| - 1];
    }
  }

  lemma CursorAppend(world: World, a: seq<nat>, b: seq<nat>, cursor: nat)
    ensures CursorOver(world, a + b, cursor) == CursorOver(world, b, CursorOver(world, a, cursor))
  {
    if b == [] {
      assert a + b == a;
    }
  }

  lemma {:induction false} RangesAppend(world: World, a: seq<nat>, b: seq<nat>, cursor: nat)
    ensures L1Ranges(world, a + b, cursor)
         == L1Ranges(world, a, cursor) + L1Ranges(world, b, CursorOver(world, a, cursor))
  {
    if b == [] {
      assert a + b == a;
    } else {
      var front := b[..|b| - 1];
      RangesAppend(world, a, front, cursor);
      CursorAppend(world, a, front, cursor);
      assert (a + b)[..|a + b| - 1] == a + front;
    }
  }

  lemma RisesAppend(world: World, a: seq<nat>, b: seq<nat>, cursor: nat)
    requires RisesOver(world, a + b, cursor)
    ensures RisesOver(world, a, cursor)
    ensures RisesOver(world, b, CursorOver(world, a, cursor))
  {
    var ab := a + b;
    assert forall k | 0 <= k < |a| :: ab[k] == a[k];
    assert forall k | 0 <= k < |b| :: ab[|a| + k] == b[k];
    forall j, k | 0 <= j < k < |b|
      ensures world.l1FinalizedHeight(b[j]) <= world.l1FinalizedHeight(b[k])
    {
      assert world.l1FinalizedHeight(ab[|a| + j]) <= world.l1FinalizedHeight(ab[|a| + k]);
    }
  }

  lemma SucceedAppend(world: World, app: Address, a: seq<nat>, b: seq<nat>)
    requires StoresSucceed(world, app, a + b)
    ensures StoresSucceed(world, app, a) && StoresSucceed(world, app, b)
  {
    var ab := a + b;
    assert forall k | 0 <= k < |a| :: ab[k] == a[k];
    assert forall k | 0 <= k < |b| :: ab[|a| + k] == b[k];
  }

  /** Where the next pass will begin on the base layer. */
  function ResumesAt(world: World, db: Db, app: Address): nat
    requires app in db.apps
  {
    StartCursor(world, db.apps[app])
  }

  /** A pass takes up where the one before left off: its local cursor, which starts from the stored
      row, is the one the last pass ended with. */
  lemma PassRefines(world: World, db: Db, app: Address, latest: nat)
    requires app in db.apps && GoodWorld(world, app)
    requires AppInvariant(world, db, app, ResumesAt(world, db, app))
    requires RisesOver(world, PassVisits(world, latest, EspressoBlock(db, app)),
                       ResumesAt(world, db, app))
    requires StoresSucceed(world, app, PassVisits(world, latest, EspressoBlock(db, app)))
    ensures var after := AppPass(world, db, app, db.apps[app], latest);
            var hs := PassVisits(world, latest, EspressoBlock(db, app));
            var from := ResumesAt(world, db, app);
            && app in after.apps
            && ResumesAt(world, after, app) == CursorOver(world, hs, from)
            && AppInvariant(world, after, app, ResumesAt(world, after, app))
            && Progress(LedgerOf(after, app), ResumesAt(world, after, app))
                 == ProgressOver(world, app, Progress(LedgerOf(db, app), from), hs)
  {
    hide VisitAll, RisesOver, StoresSucceed, PassVisits, AppInvariant, ProgressOver, GoodWorld,
      CursorOver;
    var last, from, snapshot := EspressoBlock(db, app), ResumesAt(world, db, app), db.apps[app];
    InvariantBasics(world, db, app, from);
    var hs := PassVisits(world, latest, last);
    var mark := if CatchesUp(latest, last) then None else Some(latest);
    VisitAllRefines(world, db, app, snapshot, hs, from, mark);
    var visited := VisitAll(world, db, app, snapshot, hs, from, mark);
    var final := if CatchesUp(latest, last) then Some(latest) else None;
    MarkingIsQuiet(world, visited, app, final, CursorOver(world, hs, from));
    assert AppPass(world, db, app, snapshot, latest) == StoreMark(visited, app, final);
  }

  /** Over a whole run, on the tables as on the ledger. */
  lemma {:induction false} RunRefines(world: World, db: Db, app: Address, heights: seq<nat>)
    requires app in db.apps && GoodWorld(world, app)
    requires AppInvariant(world, db, app, ResumesAt(world, db, app))
    requires RisesOver(world, RunVisits(world, heights, EspressoBlock(db, app)),
                       ResumesAt(world, db, app))
    requires StoresSucceed(world, app, RunVisits(world, heights, EspressoBlock(db, app)))
    ensures var after := RunPasses(world, db, app, heights);
            var last, from := EspressoBlock(db, app), ResumesAt(world, db, app);
            var hs := RunVisits(world, heights, last);
            && app in after.apps
            && EspressoBlock(after, app) == RunCursor(heights, last)
            && ResumesAt(world, after, app) == CursorOver(world, hs, from)
            && AppInvariant(world, after, app, ResumesAt(world, after, app))
            && Progress(LedgerOf(after, app), ResumesAt(world, after, app))
                 == ProgressOver(world, app, Progress(LedgerOf(db, app), from), hs)
  {
    hide RisesOver, StoresSucceed, PassVisits, AppInvariant, ProgressOver, GoodWorld, CursorOver,
      AppPass, ResumesAt, PassCursor;
    var last, from := EspressoBlock(db, app), ResumesAt(world, db, app);
    InvariantBasics(world, db, app, from);
    if heights == [] {
      VisitedNothing(world, app, Progress(LedgerOf(db, app), from), from);
    } else {
      var front, latest := heights[..|heights| - 1], heights[|heights| - 1];
      var a, b := RunVisits(world, front, last), PassVisits(world, latest, RunCursor(front, last));
      RisesAppend(world, a, b, from);
      SucceedAppend(world, app, a, b);
      RunRefines(world, db, app, front);
      var before := RunPasses(world, db, app, front);
      PassRefines(world, before, app, latest);
      PassStoresCursor(world, before, app, before.apps[app], latest);
      CursorAppend(world, a, b, from);
      ProgressAppend(world, app, Progress(LedgerOf(db, app), from), a, b);
    }
  }

  lemma VisitedNothing(world: World, app: Address, p: Progress, cursor: nat)
    requires world.epochLength(app) >= 1
    ensures ProgressOver(world, app, p, []) == p && CursorOver(world, [], cursor) == cursor
  {
  }

  /** The ranges asked for over a run, pass after pass, are those of its visits put together. */
  lemma {:induction false} RunRangesJoin(world: World, db: Db, app: Address, heights: seq<nat>)
    requires app in db.apps && GoodWorld(world, app)
    requires AppInvariant(world, db, app, ResumesAt(world, db, app))
    requires RisesOver(world, RunVisits(world, heights, EspressoBlock(db, app)),
                       ResumesAt(world, db, app))
    requires StoresSucceed(world, app, RunVisits(world, heights, EspressoBlock(db, app)))
    ensures RunRanges(world, db, app, heights)
         == L1Ranges(world, RunVisits(world, heights, EspressoBlock(db, app)),
                     ResumesAt(world, db, app))
  {
    hide RisesOver, StoresSucceed, PassVisits, AppInvariant, GoodWorld, CursorOver, RunPasses,
      PassCursor, ProgressOver, StartCursor, LedgerOf;
    var last, from := EspressoBlock(db, app), ResumesAt(world, db, app);
    InvariantBasics(world, db, app, from);
    if heights != [] {
      var front, latest := heights[..|heights| - 1], heights[|heights| - 1];
      var a, b := RunVisits(world, front, last), PassVisits(world, latest, RunCursor(front, last));
      RisesAppend(world, a, b, from);
      SucceedAppend(world, app, a, b);
      RunRefines(world, db, app, front);
      RunRangesJoin(world, db, app, front);
      RangesAppend(world, a, b, from);
    }
  }

  // ---- nonces over a run ----

  /** The nonces of `sender` accepted among the first `n` transactions of a block, in order. */
  function AcceptedIn(
    world: World, app: Address, l: Ledger, h: nat, n: nat, sender: Address): seq<nat>
    requires world.epochLength(app) >= 1 && n <= |world.transactions(h)|
  {
    if n == 0 then []
    else
      var before, tx := LedgerDeliverUpTo(world, app, l, h, n - 1), world.transactions(h)[n - 1];
      AcceptedIn(world, app, l, h, n - 1, sender)
      + if Accepts(world, app, before, h, n - 1) && tx.sender == sender then [tx.nonce] else []
  }

  /** Those accepted while some blocks are visited, base-layer reading and all. */
  function AcceptedOver(
    world: World, app: Address, p: Progress, hs: seq<nat>, sender: Address): seq<nat>
    requires world.epochLength(app) >= 1
  {
    if hs == [] then []
    else
      var front, h := hs[..|hs| - 1], hs[|hs| - 1];
      var before := ProgressOver(world, app, p, front);
      var read := L1Advance(world, app, before.ledger, before.cursor, world.l1FinalizedHeight(h));
      AcceptedOver(world, app, p, front, sender)
      + AcceptedIn(world, app, read, h, |world.transactions(h)|, sender)
  }

  lemma CountOn(a: seq<nat>, b: seq<nat>, first: nat)
    requires CountsFrom(a, first) && CountsFrom(b, first + |a|)
    ensures CountsFrom(a + b, first)
  {
  }

  lemma {:induction false} BlockNonces(
    world: World, app: Address, l: Ledger, h: nat, n: nat, sender: Address)
    requires world.epochLength(app) >= 1 && n <= |world.transactions(h)|
    ensures var first := NonceIn(l.nonces, sender, app);
            var accepted := AcceptedIn(world, app, l, h, n, sender);
            && CountsFrom(accepted, first)
            && NonceIn(LedgerDeliverUpTo(world, app, l, h, n).nonces, sender, app)
                 == first + |accepted|
  {
    hide LedgerDeliver, Accepts, NonceIn;
    if n > 0 {
      BlockNonces(world, app, l, h, n - 1, sender);
      DeliverNonce(world, app, LedgerDeliverUpTo(world, app, l, h, n - 1), h, n - 1, sender);
    }
  }

  lemma {:induction false} NoncesOverBlocks(
    world: World, app: Address, p: Progress, hs: seq<nat>, sender: Address)
    requires world.epochLength(app) >= 1
    ensures var first := NonceIn(p.ledger.nonces, sender, app);
            var accepted := AcceptedOver(world, app, p, hs, sender);
            && CountsFrom(accepted, first)
            && NonceIn(ProgressOver(world, app, p, hs).ledger.nonces, sender, app)
                 == first + |accepted|
  {
    hide AcceptedIn, LedgerDeliverUpTo, L1Advance, NonceIn, CountsFrom;
    if hs == [] {
      NothingAccepted(NonceIn(p.ledger.nonces, sender, app));
    } else {
      var front, h := hs[..|hs| - 1], hs[|hs| - 1];
      var before := ProgressOver(world, app, p, front);
      var f, n := world.l1FinalizedHeight(h), |world.transactions(h)|;
      var read := L1Advance(world, app, before.ledger, before.cursor, f);
      NoncesOverBlocks(world, app, p, front, sender);
      L1AdvanceAppendsBox(world, app, before.ledger, before.cursor, f);
      BlockNonces(world, app, read, h, n, sender);
      CountOn(AcceptedOver(world, app, p, front, sender), AcceptedIn(world, app, read, h, n, sender),
              NonceIn(p.ledger.nonces, sender, app));
    }
  }

  lemma NothingAccepted(first: nat)
    ensures CountsFrom([], first)
  {
  }

  /** Over a whole run, whatever is read in between and however often a block is visited, the nonces
      accepted of a sender count up one by one from the one stored at the start, so none is accepted
      twice, and the nonce stored at the end is the next. */
  lemma RunNoncesInOrder(
    world: World, db: Db, app: Address, heights: seq<nat>, sender: Address)
    requires app in db.apps && GoodWorld(world, app)
    requires AppInvariant(world, db, app, ResumesAt(world, db, app))
    requires var hs := RunVisits(world, heights, EspressoBlock(db, app));
             RisesOver(world, hs, ResumesAt(world, db, app)) && StoresSucceed(world, app, hs)
    ensures var p := Progress(LedgerOf(db, app), ResumesAt(world, db, app));
            var hs := RunVisits(world, heights, EspressoBlock(db, app));
            var accepted := AcceptedOver(world, app, p, hs, sender);
            && CountsFrom(accepted, Nonce(db, sender, app))
            && (forall j, k | 0 <= j < k < |accepted| :: accepted[j] < accepted[k])
            && Nonce(RunPasses(world, db, app, heights), sender, app)
                 == Nonce(db, sender, app) + |accepted|
  {
    hide RisesOver, StoresSucceed, AppInvariant, GoodWorld, CursorOver, RunPasses, RunVisits,
      AcceptedOver, ProgressOver, NonceIn, StartCursor;
    var from := ResumesAt(world, db, app);
    InvariantBasics(world, db, app, from);
    RunRefines(world, db, app, heights);
    var after := RunPasses(world, db, app, heights);
    InvariantBasics(world, after, app, ResumesAt(world, after, app));
    NoncesOverBlocks(world, app, Progress(LedgerOf(db, app), from),
                     RunVisits(world, heights, EspressoBlock(db, app)), sender);
  }

  lemma RisingNeverFalls(world: World, hs: seq<nat>, cursor: nat)
    requires RisesOver(world, hs, cursor)
    ensures NeverFalls(world, hs, cursor)
  {
  }

  /** The state of an application between two passes. */
  ghost predicate GoodState(world: World, db: Db, app: Address) {
    && app in db.apps
    && AppInvariant(world, db, app, ResumesAt(world, db, app))
    && GoodLog(LedgerOf(db, app).log, ResumesAt(world, db, app))
  }

  /** The reader's main guarantee. A run keeps the state good; over the run the InputBox is asked for
      the blocks between the two base-layer cursors, each exactly once; and what the input log has
      gained in base-layer inputs are exactly the events of those blocks, each once, in chain order,
      with rows that were there before untouched. */
  lemma {:induction false} RunStoresEachInputOnce(world: World, db: Db, app: Address, heights: seq<nat>)
    requires GoodWorld(world, app) && GoodCalldata(world, app) && GoodState(world, db, app)
    requires RisesOver(world, RunVisits(world, heights, EspressoBlock(db, app)),
                       ResumesAt(world, db, app))
    requires StoresSucceed(world, app, RunVisits(world, heights, EspressoBlock(db, app)))
    ensures var after := RunPasses(world, db, app, heights);
            && GoodState(world, after, app)
            && var from, to := ResumesAt(world, db, app), ResumesAt(world, after, app);
               && Tiles(RunRanges(world, db, app, heights), from, to)
               && BoxIndices(LedgerOf(after, app).log)
                    == BoxIndices(LedgerOf(db, app).log) + EventsRead(world, app, from, to)
               && LedgerOf(db, app).log <= LedgerOf(after, app).log
  {
    hide RisesOver, StoresSucceed, AppInvariant, GoodWorld, GoodCalldata, CursorOver, RunPasses,
      RunVisits, RunRanges, L1Ranges, ProgressOver, GoodLog, BoxIndices, EventsRead, Tiles,
      NeverFalls;
    var last, from := EspressoBlock(db, app), ResumesAt(world, db, app);
    var hs := RunVisits(world, heights, last);
    InvariantBasics(world, db, app, from);
    RunRefines(world, db, app, heights);
    var after := RunPasses(world, db, app, heights);
    InvariantBasics(world, after, app, ResumesAt(world, after, app));
    RunKeepsLog(world, app, Progress(LedgerOf(db, app), from), hs);
    RunRangesJoin(world, db, app, heights);
    RisingNeverFalls(world, hs, from);
    L1RangesTile(world, hs, from);
  }

  /** The first pass of a new application begins at the block in which the InputBox was deployed, so
      over all passes none of the application's events is left out at the start. */
  lemma FirstPassMissesNothing(world: World, db: Db, app: Address, to: nat)
    requires app in db.apps && db.apps[app].lastProcessedBlock == 0
    requires forall k | 0 <= k < |world.inputsAdded| && world.inputsAdded[k].app == app ::
               world.inputsAdded[k].block >= world.inputBoxDeploymentBlock
               && world.inputsAdded[k].block >= 1
    ensures world.inputBoxDeploymentBlock >= 1 ==>
              ResumesAt(world, db, app) + 1 == world.inputBoxDeploymentBlock
    ensures InputsIn(world.inputsAdded, app, ResumesAt(world, db, app) + 1, to)
         == InputsIn(world.inputsAdded, app, 0, to)
  {
    SameFromTheStart(world.inputsAdded, app, ResumesAt(world, db, app) + 1, to);
  }

  lemma {:induction false} SameFromTheStart(
    events: seq<InputAdded>, app: Address, startBlock: nat, to: nat)
    requires forall k | 0 <= k < |events| && events[k].app == app :: events[k].block >= startBlock
    ensures InputsIn(events, app, startBlock, to) == InputsIn(events, app, 0, to)
  {
    if events != [] {
      SameFromTheStart(events[..|events| - 1], app, startBlock, to);
    }
  }
}
