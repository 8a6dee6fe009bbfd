/** The loop of Run over the applications (internal/espressoreader/espresso_reader.go).

    Every iteration takes the running applications in the order a query gives them, each with the row
    it had when the iteration began. What this does to an application is what its own passes would do
    without the others, so all that is proved of one application holds for each. */
module Turns {
  import opened Model
  import opened Tables
  import opened World
  import opened Ingest
  import opened EspressoInput
  import opened Claims
  import opened Outputs
  import opened ReaderSteps
  import opened Coverage
  import opened RunRefinement
  import opened Interleaving
  import opened ReaderRuns
  import opened Independence

  /** The turn of an application, with the latest Espresso height of the iteration. */
  datatype Turn = Turn(app: Address, latest: nat)

  datatype Iteration = Iteration(latest: nat, apps: seq<Address>)

  function TurnsOf(iteration: Iteration, n: nat): (r: seq<Turn>)
    requires n <= |iteration.apps|
    ensures |r| == n
  {
    seq(n, i requires 0 <= i < n => Turn(iteration.apps[i], iteration.latest))
  }

  function AllTurns(iterations: seq<Iteration>): seq<Turn> {
    if iterations == [] then []
    else
      var last := iterations[|iterations| - 1];
      AllTurns(iterations[..|iterations| - 1]) + TurnsOf(last, |last.apps|)
  }

  predicate LengthsSet(world: World, turns: seq<Turn>) {
    forall k | 0 <= k < |turns| :: world.epochLength(turns[k].app) >= 1
  }

  function TakeTurns(world: World, db: Db, turns: seq<Turn>): Db
    requires LengthsSet(world, turns)
  {
    if turns == [] then db
    else
      var front, t := turns[..|turns| - 1], turns[|turns| - 1];
      var before := TakeTurns(world, db, front);
      if t.app !in before.apps then before
      else AppPass(world, before, t.app, before.apps[t.app], t.latest)
  }

  /** The latest heights of the turns of `app`. */
  function HeightsOf(turns: seq<Turn>, app: Address): seq<nat> {
    if turns == [] then []
    else
      var t := turns[|turns| - 1];
      HeightsOf(turns[..|turns| - 1], app) + if t.app == app then [t.latest] else []
  }

  // ---- each application on its own ----

  /** Whatever other applications there are, and in whatever order they take their turns, an application
      ends up with what its own passes make of its part of the tables. */
  lemma {:induction false} TurnsAreIndependent(world: World, db: Db, turns: seq<Turn>, app: Address)
    requires LengthsSet(world, turns) && world.epochLength(app) >= 1
    ensures SameFor(TakeTurns(world, db, turns), RunPasses(world, db, app, HeightsOf(turns, app)), app)
  {
    hide AppPass, RowsAgree, NoncesAgree, Counter, EspressoBlock;
    if turns == [] {
      SameForItself(db, app);
    } else {
      var front, t := turns[..|turns| - 1], turns[|turns| - 1];
      var a := TakeTurns(world, db, front);
      var heights := HeightsOf(front, app);
      var b := RunPasses(world, db, app, heights);
      TurnsAreIndependent(world, db, front, app);
      assert heights + [] == heights;
      if t.app == app {
        assert (heights + [t.latest])[..|heights|] == heights;
        if app in a.apps {
          PassAlike(world, a, b, app, a.apps[app], t.latest);
        }
      } else if t.app in a.apps {
        PassApart(world, a, t.app, a.apps[t.app], t.latest, app);
        var after := AppPass(world, a, t.app, a.apps[t.app], t.latest);
        SameForBack(a, after, app);
        SameForThrough(after, a, b, app);
      }
    }
  }

  /** The part of the tables that is not an application's is outside for it, in the sense of
      `Interleaving`: so what is done for another application may come between any two steps. */
  lemma ApartIsOutside(before: Db, after: Db, app: Address)
    requires SameFor(before, after, app) && app in before.apps
    ensures Outside(before, after, app)
  {
    hide NoncesAgree;
    forall key: EpochKey | key.0 == app
      ensures key in before.epochs <==> key in after.epochs
      ensures key in before.epochs ==> after.epochs[key] == before.epochs[key]
    {
      OneRow(before.epochs, after.epochs, app, key.1);
    }
    forall key: InputKey | key.0 == app
      ensures key in before.inputs <==> key in after.inputs
      ensures key in before.inputs ==> after.inputs[key] == before.inputs[key]
    {
      OneRow(before.inputs, after.inputs, app, key.1);
    }
    forall key: OutputKey | key.0 == app
      ensures key in before.outputs <==> key in after.outputs
      ensures key in before.outputs ==> after.outputs[key] == before.outputs[key]
    {
      OneRow(before.outputs, after.outputs, app, key.1);
    }
  }

  /** Every step the reader takes for another application is one. */
  lemma OthersAreOutside(world: World, db: Db, other: Address, app: Address)
    requires other != app && app in db.apps && world.epochLength(other) >= 1
    ensures forall startBlock: nat, endBlock: nat ::
              Outside(db, IngestBatch(world, db, other, startBlock, endBlock), app)
    ensures forall h: nat, i: nat | i < |world.transactions(h)| ::
              Outside(db, DeliverTx(world, db, other, h, i), app)
    ensures forall snapshot: nat, mostRecent: nat ::
              Outside(db, CheckClaims(world, db, other, snapshot, mostRecent), app)
    ensures forall snapshot: nat, mostRecent: nat ::
              Outside(db, CheckOutputs(world, db, other, snapshot, mostRecent), app)
  {
    hide Outside, SameFor, IngestBatch, DeliverTx, CheckClaims, CheckOutputs;
    forall s: nat, e: nat ensures Outside(db, IngestBatch(world, db, other, s, e), app) {
      IngestApart(world, db, other, s, e, app);
      ApartIsOutside(db, IngestBatch(world, db, other, s, e), app);
    }
    forall h: nat, i: nat | i < |world.transactions(h)|
      ensures Outside(db, DeliverTx(world, db, other, h, i), app)
    {
      DeliverApart(world, db, other, h, i, app);
      ApartIsOutside(db, DeliverTx(world, db, other, h, i), app);
    }
    forall s: nat, r: nat ensures Outside(db, CheckClaims(world, db, other, s, r), app) {
      ClaimsApart(world, db, other, s, r, app);
      ApartIsOutside(db, CheckClaims(world, db, other, s, r), app);
    }
    forall s: nat, r: nat ensures Outside(db, CheckOutputs(world, db, other, s, r), app) {
      OutputsApart(world, db, other, s, r, app);
      ApartIsOutside(db, CheckOutputs(world, db, other, s, r), app);
    }
  }

  // ---- what is asked for ----

  /** What has been noted for `app`. */
  function ItemsOf<T>(log: seq<(Address, T)>, app: Address): seq<T> {
    if log == [] then []
    else
      var last := log[|log| - 1];
      ItemsOf(log[..|log| - 1], app) + if last.0 == app then [last.1] else []
  }

  lemma {:induction false} ItemsOfAppend<T>(a: seq<(Address, T)>, b: seq<(Address, T)>, app: Address)
    ensures ItemsOf(a + b, app) == ItemsOf(a, app) + ItemsOf(b, app)
  {
    if b == [] {
      assert a + b == a;
    } else {
      ItemsOfAppend(a, b[..|b| - 1], app);
      assert (a + b)[..|a + b| - 1] == a + b[..|b| - 1];
    }
  }

  lemma {:induction false} ItemsOfNoted<T>(noted: Address, xs: seq<T>, app: Address)
    ensures ItemsOf(NotedFor(noted, xs), app) == if noted == app then xs else []
  {
    if xs != [] {
      ItemsOfNoted(noted, xs[..|xs| - 1], app);
      assert NotedFor(noted, xs)[..|xs| - 1] == NotedFor(noted, xs[..|xs| - 1]);
    }
  }

  /** The Espresso blocks asked for over some turns. */
  function TurnBlocks(world: World, db: Db, turns: seq<Turn>): seq<(Address, nat)>
    requires LengthsSet(world, turns)
  {
    if turns == [] then []
    else
      var front, t := turns[..|turns| - 1], turns[|turns| - 1];
      var before := TakeTurns(world, db, front);
      TurnBlocks(world, db, front)
      + if t.app !in before.apps then []
        else NotedFor(t.app, PassBlocks(world, t.latest, EspressoBlock(before, t.app)))
  }

  /** The ranges the InputBox is asked for over some turns. */
  function TurnRanges(world: World, db: Db, turns: seq<Turn>): seq<(Address, Range)>
    requires LengthsSet(world, turns)
  {
    if turns == [] then []
    else
      var front, t := turns[..|turns| - 1], turns[|turns| - 1];
      var before := TakeTurns(world, db, front);
      TurnRanges(world, db, front)
      + if t.app !in before.apps then []
        else NotedFor(t.app, L1Ranges(world, PassVisits(world, t.latest, EspressoBlock(before, t.app)),
                                 StartCursor(world, before.apps[t.app])))
  }

  /** What one more turn adds. */
  lemma OneMoreTurn(world: World, db: Db, front: seq<Turn>, t: Turn)
    requires LengthsSet(world, front + [t])
    ensures LengthsSet(world, front)
    ensures var before := TakeTurns(world, db, front);
            t.app in before.apps ==>
              && TakeTurns(world, db, front + [t])
                   == AppPass(world, before, t.app, before.apps[t.app], t.latest)
              && TurnBlocks(world, db, front + [t])
                   == TurnBlocks(world, db, front)
                    + NotedFor(t.app, PassBlocks(world, t.latest, EspressoBlock(before, t.app)))
              && TurnRanges(world, db, front + [t])
                   == TurnRanges(world, db, front)
                    + NotedFor(t.app, L1Ranges(
                        world, PassVisits(world, t.latest, EspressoBlock(before, t.app)),
                        StartCursor(world, before.apps[t.app])))
  {
    hide AppPass, PassBlocks, PassVisits, L1Ranges, NotedFor;
    assert (front + [t])[..|front|] == front;
    forall k | 0 <= k < |front| ensures world.epochLength(front[k].app) >= 1 {
      assert (front + [t])[k] == front[k];
    }
  }

  lemma {:induction false} PassesKeepApp(world: World, db: Db, app: Address, heights: seq<nat>)
    requires world.epochLength(app) >= 1 && app in db.apps
    ensures app in RunPasses(world, db, app, heights).apps
    ensures EspressoBlock(RunPasses(world, db, app, heights), app)
         == RunCursor(heights, EspressoBlock(db, app))
  {
    hide AppPass, PassCursor;
    if heights != [] {
      var front, latest := heights[..|heights| - 1], heights[|heights| - 1];
      var before := RunPasses(world, db, app, front);
      PassesKeepApp(world, db, app, front);
      PassKeepsApp(world, before, app, before.apps[app], latest);
      PassStoresCursor(world, before, app, before.apps[app], latest);
    }
  }

  /** For each application the blocks and ranges asked for are those of its own passes. */
  lemma {:induction false} AskedOnItsOwn(world: World, db: Db, turns: seq<Turn>, app: Address)
    requires LengthsSet(world, turns) && world.epochLength(app) >= 1 && app in db.apps
    ensures ItemsOf(TurnBlocks(world, db, turns), app)
         == RunBlocks(world, HeightsOf(turns, app), EspressoBlock(db, app))
    ensures ItemsOf(TurnRanges(world, db, turns), app)
         == RunRanges(world, db, app, HeightsOf(turns, app))
  {
    hide AppPass, PassBlocks, PassVisits, L1Ranges, NotedFor, ItemsOf, RowsAgree, NoncesAgree, StartCursor,
      TakeTurns, RunPasses;
    if turns == [] {
      NothingNoted(app);
    } else {
      var front, t := turns[..|turns| - 1], turns[|turns| - 1];
      var a := TakeTurns(world, db, front);
      var heights := HeightsOf(front, app);
      AskedOnItsOwn(world, db, front, app);
      TurnsAreIndependent(world, db, front, app);
      PassesKeepApp(world, db, app, heights);
      assert heights + [] == heights;
      if t.app in a.apps {
        var blocks := PassBlocks(world, t.latest, EspressoBlock(a, t.app));
        var ranges := L1Ranges(world, PassVisits(world, t.latest, EspressoBlock(a, t.app)),
                               StartCursor(world, a.apps[t.app]));
        ItemsOfNoted(t.app, blocks, app);
        ItemsOfNoted(t.app, ranges, app);
        ItemsOfAppend(TurnBlocks(world, db, front), NotedFor(t.app, blocks), app);
        ItemsOfAppend(TurnRanges(world, db, front), NotedFor(t.app, ranges), app);
        assert (heights + [t.latest])[..|heights|] == heights;
      } else {
        assert t.app != app;
        assert TurnBlocks(world, db, front) + [] == TurnBlocks(world, db, front);
        assert TurnRanges(world, db, front) + [] == TurnRanges(world, db, front);
      }
    }
  }

  lemma NothingNoted(app: Address)
    ensures ItemsOf<nat>([], app) == [] && ItemsOf<Range>([], app) == []
  {
  }

  // ---- so every application is served ----

  /** Over any turns of any applications each application keeps its invariant between its passes: its
      indices, its order, every base-layer input once, its epochs, its cursors. And for each the
      InputBox is asked for the blocks between its two cursors, every one exactly once. */
  lemma EveryAppIsServed(
    world: World, db: Db, turns: seq<Turn>, app: Address, boxes: seq<nat>, first: nat)
    requires LengthsSet(world, turns) && world.epochLength(app) >= 1
    requires Environment(world, app) && BetweenPasses(world, app, boxes, first, db)
    requires var hs := RunVisits(world, HeightsOf(turns, app), EspressoBlock(db, app));
             RisesOver(world, hs, ResumesAt(world, db, app)) && StoresSucceed(world, app, hs)
    ensures var after := TakeTurns(world, db, turns);
            && BetweenPasses(world, app, boxes, first, after)
            && Tiles(ItemsOf(TurnRanges(world, db, turns), app), ResumesAt(world, db, app),
                     ResumesAt(world, after, app))
  {
    hide Environment, Invariant, RisesOver, StoresSucceed, RunVisits, RunPasses, TakeTurns, Outside,
      RowsAgree, NoncesAgree, RunRanges, TurnRanges, Tiles, StartCursor, NeverFalls, L1Ranges;
    var heights := HeightsOf(turns, app);
    var alone, after := RunPasses(world, db, app, heights), TakeTurns(world, db, turns);
    RunKeepsInvariant(world, app, boxes, first, db, heights);
    TurnsAreIndependent(world, db, turns, app);
    SameForBack(after, alone, app);
    ApartIsOutside(alone, after, app);
    StepKeepsInvariant(world, app, boxes, first, State(alone, ResumesAt(world, alone, app)),
                       SomeoneElse(after));
    AskedOnItsOwn(world, db, turns, app);
    PassEnvironment(world, app, boxes, first, db);
    RunRangesJoin(world, db, app, heights);
    var hs := RunVisits(world, heights, EspressoBlock(db, app));
    RisingNeverFalls(world, hs, ResumesAt(world, db, app));
    L1RangesTile(world, hs, ResumesAt(world, db, app));
    RunRefines(world, db, app, heights);
  }
}
