/** Where a reader that has no cursor yet begins (internal/espressoreader/espresso_reader.go, Run), in
    terms of the configuration and of the heights its iterations find. */
module FirstBlocks {
  import opened Model
  import opened World
  import opened Tables
  import opened ReaderSteps
  import opened Coverage
  import opened RunRefinement
  import opened Agreement

  /** The first block read, if the first latest height is `height`: with more than 100 blocks to catch up
      the configured one, or the latest if none is configured, and none before the next height if the
      configured one is still to come; else block 1. */
  function BeginsAt(startingBlock: nat, height: nat): nat {
    if height <= 100 then 1
    else if startingBlock == 0 then height
    else if startingBlock <= height then startingBlock
    else height + 1
  }

  /** Heights of a chain that has begun, none below the one before. */
  ghost predicate HeightsFrom(heights: seq<nat>) {
    && heights != [] && heights[0] >= 1
    && (forall k | 0 <= k < |heights| :: heights[k] < TWO_TO_64)
    && (forall j, k | 0 <= j < k < |heights| :: heights[j] <= heights[k])
  }

  lemma {:induction false} StartsThere(world: World, heights: seq<nat>)
    requires HeightsFrom(heights)
    ensures LatestRises(heights, 0)
    ensures RunStart(world, heights, 0) == BeginsAt(world.startingBlock, heights[0])
    ensures RunCursor(heights, 0) == heights[|heights| - 1]
  {
    var front := heights[..|heights| - 1];
    RunCursorIsLatest(heights, 0);
    if front == [] {
      assert RunCursor([], 0) == 0 && RunStart(world, [], 0) == 1;
    } else {
      StartsThere(world, front);
    }
  }

  /** From no cursor, over heights that never fall, the blocks covered are those from the first one on to
      the last height, each once and in order. */
  lemma RunBeginsAt(world: World, heights: seq<nat>)
    requires HeightsFrom(heights)
    ensures var last := heights[|heights| - 1];
            && RunCursor(heights, 0) == last
            && RunBlocks(world, heights, 0)
                 == Blocks(BeginsAt(world.startingBlock, heights[0]), last + 1)
            && (heights[0] <= 100 ==> RunBlocks(world, heights, 0) == Blocks(1, last + 1))
            && (heights[0] > 100 && 1 <= world.startingBlock <= heights[0] ==>
                  RunBlocks(world, heights, 0) == Blocks(world.startingBlock, last + 1))
            && (heights[0] > 100 && world.startingBlock == 0 ==>
                  RunBlocks(world, heights, 0) == Blocks(heights[0], last + 1))
  {
    hide RunBlocks, RunStart, Blocks, LatestRises, RunCursor;
    StartsThere(world, heights);
    RunCoversOnce(world, heights, 0);
  }

  /** And of these blocks every one with the namespace is visited, where header answers are complete or
      fail with nothing to miss. */
  lemma VisitsBeginAt(world: World, heights: seq<nat>)
    requires HeightsFrom(heights) && RunFindsAll(world, heights, 0)
    ensures Suffices(world, RunVisits(world, heights, 0), BeginsAt(world.startingBlock, heights[0]),
                     heights[|heights| - 1] + 1)
  {
    hide RunVisits, RunStart, Suffices, LatestRises, RunCursor, RunFindsAll;
    StartsThere(world, heights);
    RunSuffices(world, heights, 0);
  }

  /** While no height has been found nothing is covered, and there is still no cursor. */
  lemma {:induction false} NothingYet(world: World, zeros: seq<nat>)
    requires forall k | 0 <= k < |zeros| :: zeros[k] == 0
    ensures RunCursor(zeros, 0) == 0 && RunBlocks(world, zeros, 0) == []
  {
    if zeros != [] {
      NothingYet(world, zeros[..|zeros| - 1]);
      BlocksAre(1, 1);
    }
  }

  // ---- in sync ----

  /** With a cursor and at most 100 blocks to go every one of them is visited, and the base layer has then
      been read up to the height the latest names. */
  lemma InSyncIsCurrent(world: World, latest: nat, last: nat, cursor: nat)
    requires last <= latest < TWO_TO_64 && latest - last <= 100
    ensures PassVisits(world, latest, last) == Blocks(last + 1, latest + 1)
    ensures last < latest ==>
              CursorOver(world, PassVisits(world, latest, last), cursor)
                == world.l1FinalizedHeight(latest)
  {
    BlocksAre(last + 1, latest + 1);
  }

  /** More than 100 blocks behind, or ahead of the latest, it is the header answers that say which are
      visited. */
  lemma CatchingUp(world: World, latest: nat, last: nat)
    requires 1 <= last && last + 100 < TWO_TO_64 && latest < TWO_TO_64
    ensures latest > last + 100 || latest < last ==>
              PassVisits(world, latest, last) == BootstrapVisits(world, last + 1, latest)
  {
  }
}
