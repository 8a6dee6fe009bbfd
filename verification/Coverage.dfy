/** Which blocks are read (internal/espressoreader/espresso_reader.go): the base-layer ranges, the
    header batches of bootstrapping, and the Espresso blocks of every pass. */
module Coverage {
  import opened Model
  import opened World
  import opened Tables
  import opened ReaderSteps
  import opened CatchUp

  type Range = (nat, nat)

  /** The ranges cut c+1 .. end into consecutive nonempty pieces. */
  ghost predicate Tiles(ranges: seq<Range>, c: nat, end: nat) {
    if ranges == [] then c == end
    else
      var r := ranges[|ranges| - 1];
      1 <= r.0 <= r.1 && r.1 == end && Tiles(ranges[..|ranges| - 1], c, r.0 - 1)
  }

  /** In a tiling every block of c+1 .. end lies in exactly one range, and no other block in any. */
  lemma {:induction false} TilesCoverOnce(ranges: seq<Range>, c: nat, end: nat, block: nat)
    requires Tiles(ranges, c, end)
    ensures c <= end
    ensures c < block <= end <==> exists k :: 0 <= k < |ranges| && ranges[k].0 <= block <= ranges[k].1
    ensures forall j, k | 0 <= j < k < |ranges| :: ranges[j].1 < ranges[k].0
  {
    if ranges != [] {
      var front, r := ranges[..|ranges| - 1], ranges[|ranges| - 1];
      TilesCoverOnce(front, c, r.0 - 1, block);
      forall j | 0 <= j < |front| ensures front[j].1 < r.0 {
        TilesCoverOnce(front, c, r.0 - 1, front[j].1);
        TilesNonempty(front, c, r.0 - 1, j);
      }
      assert forall k | 0 <= k < |front| :: ranges[k] == front[k];
      if r.0 <= block <= r.1 {
        assert ranges[|front|] == r;
      }
    }
  }

  lemma {:induction false} TilesNonempty(ranges: seq<Range>, c: nat, end: nat, j: nat)
    requires Tiles(ranges, c, end) && j < |ranges|
    ensures 1 <= ranges[j].0 <= ranges[j].1
  {
    if j < |ranges| - 1 {
      TilesNonempty(ranges[..|ranges| - 1], c, ranges[|ranges| - 1].0 - 1, j);
    }
  }

  // ---- base-layer ranges ----

  function RangeUpTo(from: nat, to: nat): seq<Range> {
    if to > from then [(from + 1, to)] else []
  }

  /** The ranges the InputBox is asked for while these blocks are visited. */
  function L1Ranges(world: World, hs: seq<nat>, cursor: nat): seq<Range> {
    if hs == [] then []
    else
      var front, h := hs[..|hs| - 1], hs[|hs| - 1];
      var from := CursorOver(world, front, cursor);
      var f := world.l1FinalizedHeight(h);
      L1Ranges(world, front, cursor) + RangeUpTo(from, f)
  }

  /** The finalized height never falls from one visited block to the next, the cursor coming first. */
  ghost predicate NeverFalls(world: World, hs: seq<nat>, cursor: nat) {
    forall k | 0 <= k < |hs| ::
      CursorOver(world, hs[..k], cursor) <= world.l1FinalizedHeight(hs[k])
  }

  function TotalLength(ranges: seq<Range>): int {
    if ranges == [] then 0
    else
      var r := ranges[|ranges| - 1];
      TotalLength(ranges[..|ranges| - 1]) + r.1 - r.0 + 1
  }

  lemma {:induction false} TilesLength(ranges: seq<Range>, c: nat, end: nat)
    requires Tiles(ranges, c, end)
    ensures TotalLength(ranges) == end - c
  {
    if ranges != [] {
      TilesLength(ranges[..|ranges| - 1], c, ranges[|ranges| - 1].0 - 1);
    }
  }

  /** What is read in all is what the cursor has gained, plus what it lost on the way. */
  lemma {:induction false} LengthAgainstGain(world: World, hs: seq<nat>, cursor: nat)
    ensures TotalLength(L1Ranges(world, hs, cursor)) >= CursorOver(world, hs, cursor) - cursor
    ensures TotalLength(L1Ranges(world, hs, cursor)) == CursorOver(world, hs, cursor) - cursor <==>
            NeverFalls(world, hs, cursor)
  {
    hide L1Ranges, TotalLength, NeverFalls;
    if hs == [] {
      NothingGained(world, cursor);
    } else {
      var front, h := hs[..|hs| - 1], hs[|hs| - 1];
      assert hs == front + [h];
      LengthAgainstGain(world, front, cursor);
      LastRange(world, front, h, cursor);
      NeverFallsLast(world, front, h, cursor);
    }
  }

  lemma NothingGained(world: World, cursor: nat)
    ensures TotalLength(L1Ranges(world, [], cursor)) == 0 && NeverFalls(world, [], cursor)
  {
  }

  lemma LastRange(world: World, front: seq<nat>, h: nat, cursor: nat)
    ensures var from, f := CursorOver(world, front, cursor), world.l1FinalizedHeight(h);
            TotalLength(L1Ranges(world, front + [h], cursor))
              == TotalLength(L1Ranges(world, front, cursor)) + (if f > from then f - from else 0)
  {
    hide L1Ranges;
    RangesOneMore(world, front, cursor, h);
    var hs := front + [h];
    var before, ranges := L1Ranges(world, front, cursor), L1Ranges(world, hs, cursor);
    var from, f := CursorOver(world, front, cursor), world.l1FinalizedHeight(h);
    if f > from {
      assert ranges == before + [(from + 1, f)];
      assert ranges[..|ranges| - 1] == before;
    } else {
      assert ranges == before;
    }
  }

  lemma NeverFallsLast(world: World, front: seq<nat>, h: nat, cursor: nat)
    ensures NeverFalls(world, front + [h], cursor) <==>
              NeverFalls(world, front, cursor)
              && CursorOver(world, front, cursor) <= world.l1FinalizedHeight(h)
  {
    var hs := front + [h];
    assert hs[..|front|] == front && hs[|front|] == h;
    assert forall k | 0 <= k < |front| :: hs[..k] == front[..k] && hs[k] == front[k];
    if NeverFalls(world, hs, cursor) {
      forall k | 0 <= k < |front|
        ensures CursorOver(world, front[..k], cursor) <= world.l1FinalizedHeight(front[k])
      {
        assert CursorOver(world, hs[..k], cursor) <= world.l1FinalizedHeight(hs[k]);
      }
      assert CursorOver(world, hs[..|front|], cursor) <= world.l1FinalizedHeight(hs[|front|]);
    }
  }

  /** The ranges read cover the blocks after the starting cursor up to the last finalized height, each
      once, exactly if the finalized height never falls. Where it falls, blocks are read twice. */
  lemma {:induction false} L1RangesTile(world: World, hs: seq<nat>, cursor: nat)
    ensures Tiles(L1Ranges(world, hs, cursor), cursor, CursorOver(world, hs, cursor)) <==>
            NeverFalls(world, hs, cursor)
  {
    LengthAgainstGain(world, hs, cursor);
    if NeverFalls(world, hs, cursor) {
      RisingRangesTile(world, hs, cursor);
    } else if Tiles(L1Ranges(world, hs, cursor), cursor, CursorOver(world, hs, cursor)) {
      TilesLength(L1Ranges(world, hs, cursor), cursor, CursorOver(world, hs, cursor));
    }
  }

  lemma {:induction false} RisingRangesTile(world: World, hs: seq<nat>, cursor: nat)
    requires NeverFalls(world, hs, cursor)
    ensures Tiles(L1Ranges(world, hs, cursor), cursor, CursorOver(world, hs, cursor))
  {
    hide NeverFalls, Tiles, CursorOver, L1Ranges;
    if hs == [] {
      NothingTiles(world, cursor);
    } else {
      var front, h := hs[..|hs| - 1], hs[|hs| - 1];
      assert hs == front + [h];
      NeverFallsLast(world, front, h, cursor);
      RisingRangesTile(world, front, cursor);
      RangesOneMore(world, front, cursor, h);
      OneMoreTile(L1Ranges(world, front, cursor), cursor, CursorOver(world, front, cursor),
                  world.l1FinalizedHeight(h));
    }
  }

  lemma NothingTiles(world: World, cursor: nat)
    ensures Tiles(L1Ranges(world, [], cursor), cursor, CursorOver(world, [], cursor))
  {
  }

  lemma OneMoreTile(ranges: seq<Range>, c: nat, from: nat, to: nat)
    requires Tiles(ranges, c, from) && from <= to
    ensures Tiles(ranges + RangeUpTo(from, to), c, to)
  {
    assert ranges + [] == ranges;
    assert (ranges + [(from + 1, to)])[..|ranges|] == ranges;
  }

  /** These things, noted for an application. */
  function NotedFor<T>(app: Address, xs: seq<T>): (r: seq<(Address, T)>)
    ensures |r| == |xs|
  {
    seq(|xs|, i requires 0 <= i < |xs| => (app, xs[i]))
  }

  lemma NotedForAppend<T>(app: Address, a: seq<T>, b: seq<T>)
    ensures NotedFor(app, a + b) == NotedFor(app, a) + NotedFor(app, b)
  {
  }

  /** The tables, and for which application what has been asked for: ranges of the InputBox, and
      Espresso blocks. */
  datatype Journal = Journal(tables: Db, ranges: seq<(Address, Range)>, asked: seq<(Address, nat)>)

  function AfterVisit(
    world: World, j: Journal, app: Address, snapshot: AppRow, h: nat, cursor: nat, mark: Option<nat>)
    : Journal
    requires world.epochLength(app) >= 1
  {
    var f := world.l1FinalizedHeight(h);
    j.(tables := StoreMark(Visit(world, j.tables, app, snapshot, h, cursor), app, mark),
       ranges := j.ranges + NotedFor(app, RangeUpTo(cursor, f)))
  }

  /** Blocks have been asked for, and of these `hs` visited, starting with one local cursor and ending
      with another. */
  ghost predicate Visited(
    world: World, before: Journal, after: Journal, app: Address, snapshot: AppRow,
    asked: seq<nat>, hs: seq<nat>, from: nat, to: nat, mark: Option<nat>)
  {
    && world.epochLength(app) >= 1
    && after == Journal(VisitAll(world, before.tables, app, snapshot, hs, from, mark),
                        before.ranges + NotedFor(app, L1Ranges(world, hs, from)),
                        before.asked + NotedFor(app, asked))
    && to == CursorOver(world, hs, from)
  }

  lemma VisitedNone(
    world: World, j: Journal, app: Address, snapshot: AppRow, cursor: nat, mark: Option<nat>)
    requires world.epochLength(app) >= 1
    ensures Visited(world, j, j, app, snapshot, [], [], cursor, cursor, mark)
  {
  }

  lemma VisitedOneMore(
    world: World, before: Journal, after: Journal, app: Address, snapshot: AppRow,
    asked: seq<nat>, hs: seq<nat>, from: nat, to: nat, mark: Option<nat>, h: nat)
    requires Visited(world, before, after, app, snapshot, asked, hs, from, to, mark)
    ensures Visited(world, before, AfterVisit(world, after, app, snapshot, h, to, mark),
                    app, snapshot, asked, hs + [h], from, world.l1FinalizedHeight(h), mark)
  {
    hide VisitAll, L1Ranges, CursorOver, Visit, StoreMark, NotedFor;
    VisitAllOneMore(world, before.tables, app, snapshot, hs, from, mark, h);
    RangesOneMore(world, hs, from, h);
    var more := RangeUpTo(to, world.l1FinalizedHeight(h));
    NotedForAppend(app, L1Ranges(world, hs, from), more);
    assert before.ranges + NotedFor(app, L1Ranges(world, hs, from)) + NotedFor(app, more)
        == before.ranges + (NotedFor(app, L1Ranges(world, hs, from)) + NotedFor(app, more));
  }

  lemma AskedMore(
    world: World, before: Journal, after: Journal, app: Address, snapshot: AppRow,
    asked: seq<nat>, hs: seq<nat>, from: nat, to: nat, mark: Option<nat>, more: seq<nat>)
    requires Visited(world, before, after, app, snapshot, asked, hs, from, to, mark)
    ensures Visited(world, before, after.(asked := after.asked + NotedFor(app, more)), app, snapshot,
                    asked + more, hs, from, to, mark)
  {
    hide VisitAll, L1Ranges, NotedFor;
    NotedForAppend(app, asked, more);
    assert before.asked + NotedFor(app, asked) + NotedFor(app, more)
        == before.asked + (NotedFor(app, asked) + NotedFor(app, more));
  }

  lemma VisitAllOneMore(
    world: World, db: Db, app: Address, snapshot: AppRow, hs: seq<nat>, cursor: nat,
    mark: Option<nat>, h: nat)
    requires world.epochLength(app) >= 1
    ensures VisitAll(world, db, app, snapshot, hs + [h], cursor, mark)
         == StoreMark(Visit(world, VisitAll(world, db, app, snapshot, hs, cursor, mark), app, snapshot,
                            h, CursorOver(world, hs, cursor)), app, mark)
  {
    assert (hs + [h])[..|hs|] == hs;
  }

  lemma RangesOneMore(world: World, hs: seq<nat>, cursor: nat, h: nat)
    ensures var from, f := CursorOver(world, hs, cursor), world.l1FinalizedHeight(h);
            && CursorOver(world, hs + [h], cursor) == f
            && L1Ranges(world, hs + [h], cursor)
                 == L1Ranges(world, hs, cursor) + RangeUpTo(from, f)
  {
    assert (hs + [h])[..|hs|] == hs;
  }

  // ---- header batches of bootstrapping ----

  /** Addition of uint64 values. */
  function Add64(a: nat, b: nat): (r: nat)
    ensures a + b < TWO_TO_64 ==> r == a + b
  {
    (a + b) % TWO_TO_64
  }

  const BATCH_LIMIT: nat := 100

  function BatchEnd(first: nat, latest: nat): nat {
    if first + BATCH_LIMIT > latest + 1 then latest + 1 else first + BATCH_LIMIT
  }

  /** The batches, each from its first block to one past its last. */
  function Batches(first: nat, latest: nat): seq<Range>
    decreases latest + 1 - first
  {
    if latest < first then []
    else
      [(first, BatchEnd(first, latest))] + Batches(first + BATCH_LIMIT, latest)
  }

  function BlocksOf(ranges: seq<Range>): seq<nat> {
    if ranges == [] then [] else Blocks(ranges[0].0, ranges[0].1) + BlocksOf(ranges[1..])
  }

  /** Batches are 100 blocks long, but for a last one that may be shorter and is not empty, and put
      together are the blocks in order. */
  lemma {:induction false} BatchesPartition(first: nat, latest: nat)
    ensures forall k | 0 <= k < |Batches(first, latest)| ::
              var b := Batches(first, latest)[k];
              && first <= b.0 < b.1 <= latest + 1 && b.1 <= b.0 + 100
              && (k < |Batches(first, latest)| - 1 ==> b.1 == b.0 + 100)
    ensures BlocksOf(Batches(first, latest)) == Blocks(first, latest + 1)
    decreases latest + 1 - first
  {
    if first <= latest {
      var end := BatchEnd(first, latest);
      BatchesPartition(first + BATCH_LIMIT, latest);
      var rest := Batches(first + BATCH_LIMIT, latest);
      assert Batches(first, latest)[1..] == rest;
      if end == latest + 1 {
        BlocksAre(first + BATCH_LIMIT, latest + 1);
      } else {
        BlocksJoin(first, end, latest + 1);
      }
    }
  }

  // ---- the blocks bootstrapping visits ----

  /** The blocks of an answer whose namespace table has the namespace. A table is taken to be that of
      the block as many places after the first one asked for. */
  function Found(world: World, tables: seq<Bytes>, start: nat): seq<nat> {
    if tables == [] then []
    else
      var n := |tables| - 1;
      Found(world, tables[..n], start) + if TableHas(world, tables[n]) then [start + n] else []
  }

  /** If the answer cannot be unmarshalled the whole batch is skipped. */
  function BatchVisits(world: World, batch: Range): seq<nat> {
    match world.headerAnswer(batch.0, batch.1)
    case None => []
    case Some(tables) => Found(world, tables, batch.0)
  }

  function BootstrapVisits(world: World, first: nat, latest: nat): seq<nat>
    decreases latest + 1 - first
  {
    if latest < first then []
    else
      BatchVisits(world, (first, BatchEnd(first, latest)))
      + BootstrapVisits(world, first + BATCH_LIMIT, latest)
  }

  /** The answer has the table of every block asked for, in order. */
  ghost predicate Honest(world: World, batch: Range) {
    var answer := world.headerAnswer(batch.0, batch.1);
    && answer.Some? && batch.0 + |answer.value| == batch.1
    && forall i | 0 <= i < |answer.value| :: answer.value[i] == world.namespaceTable(batch.0 + i)
  }

  ghost predicate Failed(world: World, batch: Range) {
    world.headerAnswer(batch.0, batch.1).None?
  }

  ghost predicate NamespaceIn(world: World, batch: Range) {
    exists h :: batch.0 <= h < batch.1 && HasNamespace(world, h)
  }

  lemma {:induction false} FoundHonest(world: World, tables: seq<Bytes>, start: nat)
    requires forall i | 0 <= i < |tables| :: tables[i] == world.namespaceTable(start + i)
    ensures Found(world, tables, start) == BlocksWithNamespace(world, start, start + |tables|)
  {
    hide TableHas;
    if tables != [] {
      FoundHonest(world, tables[..|tables| - 1], start);
    }
  }

  lemma HonestBatch(world: World, batch: Range)
    requires Honest(world, batch)
    ensures BatchVisits(world, batch) == BlocksWithNamespace(world, batch.0, batch.1)
  {
    hide TableHas, HasNamespace, Found, BlocksWithNamespace;
    FoundHonest(world, world.headerAnswer(batch.0, batch.1).value, batch.0);
  }

  /** A failed batch goes unnoticed exactly if it has no block with the namespace. */
  lemma BatchVisitsExactly(world: World, batch: Range)
    requires Honest(world, batch) || Failed(world, batch)
    ensures forall k | 0 <= k < |BatchVisits(world, batch)| ::
              batch.0 <= BatchVisits(world, batch)[k] < batch.1
    ensures BatchVisits(world, batch) == BlocksWithNamespace(world, batch.0, batch.1) <==>
            !(Failed(world, batch) && NamespaceIn(world, batch))
  {
    hide HasNamespace, Found, BlocksWithNamespace;
    BlocksWithNamespaceAre(world, batch.0, batch.1);
    if Honest(world, batch) {
      HonestBatch(world, batch);
    } else if !NamespaceIn(world, batch) {
      HeadIsMember(BlocksWithNamespace(world, batch.0, batch.1));
    } else {
      var h :| batch.0 <= h < batch.1 && HasNamespace(world, h);
      assert h in BlocksWithNamespace(world, batch.0, batch.1);
    }
  }

  lemma {:induction false} WithNamespaceJoin(world: World, a: nat, b: nat, c: nat)
    requires a <= b <= c
    ensures BlocksWithNamespace(world, a, b) + BlocksWithNamespace(world, b, c)
         == BlocksWithNamespace(world, a, c)
    decreases c
  {
    hide HasNamespace;
    if b < c {
      WithNamespaceJoin(world, a, b, c - 1);
    }
  }

  lemma SplitNoLater(a: seq<nat>, b: seq<nat>, c: seq<nat>, d: seq<nat>, m: nat)
    requires forall k | 0 <= k < |b| :: m <= b[k]
    requires forall k | 0 <= k < |c| :: c[k] < m
    requires a + b == c + d
    ensures |c| <= |a|
  {
    if b != [] {
      assert (a + b)[|a|] == b[0];
      assert forall k | 0 <= k < |c| :: (c + d)[k] == c[k];
    }
  }

  /** Two lists that agree agree below `m` and from `m` on. */
  lemma SplitAt(a: seq<nat>, b: seq<nat>, c: seq<nat>, d: seq<nat>, m: nat)
    requires forall k | 0 <= k < |a| :: a[k] < m
    requires forall k | 0 <= k < |b| :: m <= b[k]
    requires forall k | 0 <= k < |c| :: c[k] < m
    requires forall k | 0 <= k < |d| :: m <= d[k]
    ensures a + b == c + d <==> a == c && b == d
  {
    if a + b == c + d {
      SplitNoLater(a, b, c, d, m);
      SplitNoLater(c, d, a, b, m);
      assert a == (a + b)[..|a|] && c == (c + d)[..|c|];
      assert b == (a + b)[|a|..] && d == (c + d)[|c|..];
    }
  }

  /** Every failed batch is one without the namespace. */
  ghost predicate FailuresUnnoticed(world: World, batches: seq<Range>) {
    forall k | 0 <= k < |batches| :: !(Failed(world, batches[k]) && NamespaceIn(world, batches[k]))
  }

  lemma Unnoticed(world: World, b: Range, rest: seq<Range>)
    ensures FailuresUnnoticed(world, [b] + rest) <==>
              !(Failed(world, b) && NamespaceIn(world, b)) && FailuresUnnoticed(world, rest)
  {
    hide Failed, NamespaceIn;
    var batches := [b] + rest;
    assert batches[0] == b && forall k | 0 <= k < |rest| :: rest[k] == batches[k + 1];
  }

  /** Bootstrapping visits the blocks with the namespace, all of them in order, exactly if no answer
      that cannot be unmarshalled was for a batch with such a block. */
  lemma {:induction false} BootstrapVisitsExactly(world: World, first: nat, latest: nat)
    requires first <= latest + 1
    requires forall k | 0 <= k < |Batches(first, latest)| ::
               var b := Batches(first, latest)[k]; Honest(world, b) || Failed(world, b)
    ensures forall k | 0 <= k < |BootstrapVisits(world, first, latest)| ::
              first <= BootstrapVisits(world, first, latest)[k] <= latest
    ensures BootstrapVisits(world, first, latest) == BlocksWithNamespace(world, first, latest + 1) <==>
            FailuresUnnoticed(world, Batches(first, latest))
    decreases latest + 1 - first
  {
    hide BatchVisits, BlocksWithNamespace, Honest, Failed, NamespaceIn, HasNamespace;
    if latest < first {
      NothingBefore(world, first, latest + 1);
    } else {
      var end := BatchEnd(first, latest);
      var batches, rest := Batches(first, latest), Batches(first + BATCH_LIMIT, latest);
      assert batches == [(first, end)] + rest;
      assert batches[0] == (first, end);
      assert forall k | 0 <= k < |rest| :: rest[k] == batches[k + 1];
      Unnoticed(world, (first, end), rest);
      BatchVisitsExactly(world, (first, end));
      BlocksWithNamespaceAre(world, first, end);
      BlocksWithNamespaceAre(world, end, latest + 1);
      WithNamespaceJoin(world, first, end, latest + 1);
      if end == latest + 1 {
        NothingBefore(world, end, latest + 1);
        assert rest == [] && BootstrapVisits(world, first + BATCH_LIMIT, latest) == [];
      } else {
        BootstrapVisitsExactly(world, first + BATCH_LIMIT, latest);
      }
      SplitAt(BatchVisits(world, (first, end)), BootstrapVisits(world, first + BATCH_LIMIT, latest),
              BlocksWithNamespace(world, first, end), BlocksWithNamespace(world, end, latest + 1), end);
    }
  }

  // ---- the blocks of a pass ----

  /** Subtraction of uint64 values. */
  function Sub64(a: nat, b: nat): (r: nat)
    ensures b <= a < TWO_TO_64 ==> r == a - b
  {
    (a - b) % TWO_TO_64
  }

  predicate CatchesUp(latest: nat, last: nat) {
    Sub64(latest, last) > BATCH_LIMIT
  }

  /** The last block taken as processed already: on a first bootstrap the configured one. */
  function PassFrom(world: World, latest: nat, last: nat): nat {
    if CatchesUp(latest, last) && last == 0 then
      if world.startingBlock != 0 then world.startingBlock - 1 else latest - 1
    else last
  }

  /** A pass covers the blocks after that one up to the latest. */
  function PassBlocks(world: World, latest: nat, last: nat): seq<nat> {
    Blocks(PassFrom(world, latest, last) + 1, latest + 1)
  }

  /** The Espresso cursor after a pass: bootstrapping stores it at the end, the in-sync loop only if
      it has a block to process. */
  function PassCursor(latest: nat, last: nat): nat {
    if CatchesUp(latest, last) || last < latest then latest else last
  }

  // ---- passes one after the other ----

  function RunCursor(heights: seq<nat>, last: nat): nat {
    if heights == [] then last
    else PassCursor(heights[|heights| - 1], RunCursor(heights[..|heights| - 1], last))
  }

  function RunBlocks(world: World, heights: seq<nat>, last: nat): seq<nat> {
    if heights == [] then []
    else
      var front, latest := heights[..|heights| - 1], heights[|heights| - 1];
      RunBlocks(world, front, last) + PassBlocks(world, latest, RunCursor(front, last))
  }

  function Latest(heights: seq<nat>, last: nat): nat {
    if heights == [] then last else heights[|heights| - 1]
  }

  function Min(a: nat, b: nat): nat {
    if a <= b then a else b
  }

  /** The first block covered, if it was `start` before a pass that began at cursor `c`. A starting
      block beyond the latest one is not waited for. */
  function NextStart(world: World, latest: nat, c: nat, start: nat): nat {
    if c == 0 then Min(PassFrom(world, latest, 0), latest) + 1 else start
  }

  /** The first block a run covers. */
  function RunStart(world: World, heights: seq<nat>, last: nat): nat {
    if heights == [] then last + 1
    else
      var front, latest := heights[..|heights| - 1], heights[|heights| - 1];
      NextStart(world, latest, RunCursor(front, last), RunStart(world, front, last))
  }

  predicate LatestRises(heights: seq<nat>, last: nat) {
    && (forall k | 0 <= k < |heights| :: last <= heights[k] < TWO_TO_64)
    && (forall j, k | 0 <= j < k < |heights| :: heights[j] <= heights[k])
  }

  lemma {:induction false} RunCursorIsLatest(heights: seq<nat>, last: nat)
    requires LatestRises(heights, last)
    ensures RunCursor(heights, last) == Latest(heights, last)
  {
    if heights != [] {
      var front, latest := heights[..|heights| - 1], heights[|heights| - 1];
      FrontRises(heights, last);
      RunCursorIsLatest(front, last);
      PassEndsAtLatest(latest, Latest(front, last));
    }
  }

  lemma PassEndsAtLatest(latest: nat, last: nat)
    requires last <= latest < TWO_TO_64
    ensures PassCursor(latest, last) == latest
  {
  }

  /** However bootstrapping and the in-sync loop take turns, over passes with latest heights that never
      fall every block from the first one on is covered exactly once, in order, and every pass leaves
      the stored cursor at its latest height. */
  lemma {:induction false} RunCoversOnce(world: World, heights: seq<nat>, last: nat)
    requires LatestRises(heights, last)
    ensures RunCursor(heights, last) == Latest(heights, last)
    ensures RunBlocks(world, heights, last)
         == Blocks(RunStart(world, heights, last), RunCursor(heights, last) + 1)
    ensures 1 <= RunStart(world, heights, last) <= RunCursor(heights, last) + 1
    ensures last != 0 ==> RunStart(world, heights, last) == last + 1
  {
    RunCursorIsLatest(heights, last);
    assert Blocks(last + 1, last + 1) == [];
    hide PassFrom, PassCursor, PassBlocks, Blocks, NextStart;
    if heights != [] {
      var front, latest := heights[..|heights| - 1], heights[|heights| - 1];
      FrontRises(heights, last);
      RunCoversOnce(world, front, last);
      OnePassMore(world, latest, RunCursor(front, last), RunStart(world, front, last));
    }
  }

  lemma FrontRises(heights: seq<nat>, last: nat)
    requires heights != [] && LatestRises(heights, last)
    ensures var front, latest := heights[..|heights| - 1], heights[|heights| - 1];
            && LatestRises(front, last)
            && last <= Latest(front, last) <= latest < TWO_TO_64
  {
  }

  /** A pass after blocks s .. c have been covered, which are none if the cursor is still zero. */
  lemma OnePassMore(world: World, latest: nat, c: nat, s: nat)
    requires c <= latest < TWO_TO_64 && 1 <= s <= c + 1
    ensures PassCursor(latest, c) == latest
    ensures var start := NextStart(world, latest, c, s);
            && (c != 0 ==> start == s)
            && 1 <= start <= latest + 1
            && Blocks(s, c + 1) + PassBlocks(world, latest, c) == Blocks(start, latest + 1)
  {
    if c == 0 {
      BlocksAre(s, 1);
      BlocksAre(PassFrom(world, latest, 0) + 1, latest + 1);
      BlocksAre(latest + 1, latest + 1);
    } else {
      BlocksJoin(s, c + 1, latest + 1);
    }
  }

  /** Once there is a cursor, a height below it wraps the difference around: the pass bootstraps nothing
      and moves the cursor back. */
  lemma PassGain(world: World, latest: nat, c: nat)
    requires 1 <= c && c + BATCH_LIMIT < TWO_TO_64 && latest < TWO_TO_64
    ensures PassCursor(latest, c) == latest
    ensures |PassBlocks(world, latest, c)| == if c <= latest then latest - c else 0
  {
    BlocksAre(c + 1, latest + 1);
  }

  /** Heights of a chain that has begun, after a first bootstrap. */
  predicate SmallHeights(heights: seq<nat>, last: nat) {
    && 1 <= last && last + BATCH_LIMIT < TWO_TO_64
    && forall k | 0 <= k < |heights| :: 1 <= heights[k] && heights[k] + BATCH_LIMIT < TWO_TO_64
  }

  /** What is covered in all is what the cursor has gained, plus what it lost on the way. */
  lemma {:induction false} BlocksAgainstGain(world: World, heights: seq<nat>, last: nat)
    requires SmallHeights(heights, last)
    ensures RunCursor(heights, last) == Latest(heights, last)
    ensures |RunBlocks(world, heights, last)| >= RunCursor(heights, last) - last
    ensures |RunBlocks(world, heights, last)| == RunCursor(heights, last) - last
       <==> LatestRises(heights, last)
  {
    hide PassCursor, PassBlocks;
    if heights != [] {
      var front, latest := heights[..|heights| - 1], heights[|heights| - 1];
      BlocksAgainstGain(world, front, last);
      PassGain(world, latest, Latest(front, last));
      LastRises(front, latest, last);
      assert heights == front + [latest];
    }
  }

  lemma LastRises(front: seq<nat>, latest: nat, last: nat)
    requires latest < TWO_TO_64
    ensures LatestRises(front + [latest], last) <==>
            LatestRises(front, last) && Latest(front, last) <= latest
  {
    var heights := front + [latest];
    assert forall k | 0 <= k < |front| :: heights[k] == front[k];
    assert heights[|front|] == latest;
    if LatestRises(heights, last) {
      FrontRises(heights, last);
      assert heights[..|heights| - 1] == front;
    }
  }

  /** Every block after the first cursor is covered exactly once up to the last one, which is not behind
      it, if and only if the latest height never falls. */
  lemma RunCoversExactly(world: World, heights: seq<nat>, last: nat)
    requires SmallHeights(heights, last)
    ensures && last <= RunCursor(heights, last)
            && RunBlocks(world, heights, last) == Blocks(last + 1, RunCursor(heights, last) + 1)
       <==> LatestRises(heights, last)
  {
    hide RunBlocks, RunCursor, Blocks, LatestRises;
    BlocksAgainstGain(world, heights, last);
    BlocksAre(last + 1, RunCursor(heights, last) + 1);
    if LatestRises(heights, last) {
      RunCoversOnce(world, heights, last);
    }
  }

  // ---- what a pass does to the tables ----

  /** The local base-layer cursor a pass begins with. */
  function StartCursor(world: World, snapshot: AppRow): nat {
    if snapshot.lastProcessedBlock < world.inputBoxDeploymentBlock
    then world.inputBoxDeploymentBlock - 1 else snapshot.lastProcessedBlock
  }

  /** The blocks a pass visits: all it covers, or in catching up those found to have the namespace. */
  function PassVisits(world: World, latest: nat, last: nat): seq<nat> {
    var first := PassFrom(world, latest, last) + 1;
    if CatchesUp(latest, last) then BootstrapVisits(world, first, latest)
    else Blocks(first, latest + 1)
  }

  function AppPass(world: World, db: Db, app: Address, snapshot: AppRow, latest: nat): Db
    requires world.epochLength(app) >= 1
  {
    var last := EspressoBlock(db, app);
    var hs := PassVisits(world, latest, last);
    if CatchesUp(latest, last) then
      SetEspressoBlock(
        VisitAll(world, db, app, snapshot, hs, StartCursor(world, snapshot), None), app, latest)
    else
      VisitAll(world, db, app, snapshot, hs, StartCursor(world, snapshot), Some(latest))
  }

  /** The cursor a pass leaves in the tables is `PassCursor`. */
  lemma PassStoresCursor(world: World, db: Db, app: Address, snapshot: AppRow, latest: nat)
    requires world.epochLength(app) >= 1
    ensures EspressoBlock(AppPass(world, db, app, snapshot, latest), app)
         == PassCursor(latest, EspressoBlock(db, app))
  {
    hide Visit;
    BlocksAre(EspressoBlock(db, app) + 1, latest + 1);
  }

  lemma PassKeepsApp(world: World, db: Db, app: Address, snapshot: AppRow, latest: nat)
    requires world.epochLength(app) >= 1 && app in db.apps
    ensures app in AppPass(world, db, app, snapshot, latest).apps
  {
    hide VisitAll;
    var last := EspressoBlock(db, app);
    VisitAllKeepsApp(world, db, app, snapshot, PassVisits(world, latest, last),
                     StartCursor(world, snapshot),
                     if CatchesUp(latest, last) then None else Some(latest));
  }

  function RunPasses(world: World, db: Db, app: Address, heights: seq<nat>): Db
    requires world.epochLength(app) >= 1
  {
    if heights == [] then db
    else
      var before := RunPasses(world, db, app, heights[..|heights| - 1]);
      if app !in before.apps then before
      else AppPass(world, before, app, before.apps[app], heights[|heights| - 1])
  }

  /** The ranges the InputBox is asked for over a run. */
  function RunRanges(world: World, db: Db, app: Address, heights: seq<nat>): seq<Range>
    requires world.epochLength(app) >= 1
  {
    if heights == [] then []
    else
      var front, latest := heights[..|heights| - 1], heights[|heights| - 1];
      var before := RunPasses(world, db, app, front);
      RunRanges(world, db, app, front)
      + if app !in before.apps then []
        else L1Ranges(world, PassVisits(world, latest, EspressoBlock(before, app)),
                      StartCursor(world, before.apps[app]))
  }

  // ---- stopping in the middle ----

  /** The in-sync loop sets the Espresso cursor to the latest height after its first block already. If
      it is stopped after block `h` and run again later, every block is covered exactly if `h` was the
      latest one; the blocks between are never come back to. */
  lemma StoppingEarlyLosesBlocks(
    world: World, db: Db, app: Address, snapshot: AppRow, first: nat, h: nat, latest: nat,
    later: nat, cursor: nat)
    requires world.epochLength(app) >= 1
    requires 1 <= first <= h <= latest <= later < TWO_TO_64
    ensures var stopped := VisitAll(world, db, app, snapshot, Blocks(first, h + 1), cursor,
                                    Some(latest));
            var resumed := PassBlocks(world, later, EspressoBlock(stopped, app));
            && EspressoBlock(stopped, app) == latest
            && (Blocks(first, h + 1) + resumed == Blocks(first, later + 1) <==> h == latest)
  {
    hide VisitAll, Blocks, CatchesUp;
    BlocksAre(first, h + 1);
    MarkedAtLatest(world, db, app, snapshot, Blocks(first, h + 1), cursor, latest);
    BlocksAre(latest + 1, later + 1);
    BlocksAre(first, later + 1);
    assert |Blocks(first, h + 1) + Blocks(latest + 1, later + 1)| == h + 1 - first + later - latest;
    if h == latest {
      BlocksJoin(first, h + 1, later + 1);
    }
  }

  lemma MarkedAtLatest(
    world: World, db: Db, app: Address, snapshot: AppRow, hs: seq<nat>, cursor: nat, latest: nat)
    requires world.epochLength(app) >= 1 && hs != []
    ensures EspressoBlock(VisitAll(world, db, app, snapshot, hs, cursor, Some(latest)), app) == latest
  {
    hide Visit, CursorOver;
  }
}
