/** How many rows a base-layer event gets when finalized heights may fall
    (internal/espressoreader/espresso_reader.go, readL1).

    The reader takes the height a block names as its cursor even if it is below the one before, and then
    reads blocks again. `Coverage` says when ranges overlap; here is what that does to the log. */
module EventRows {
  import opened Model
  import opened EpochMath
  import opened Tables
  import opened World
  import opened Ingest
  import opened Ledger
  import opened IngestRefinement
  import opened EspressoInput
  import opened EspressoRefinement
  import opened CatchUp
  import opened ReaderSteps
  import opened Coverage

  /** The events in some ranges, range by range. */
  function EventsOver(world: World, app: Address, ranges: seq<Range>): seq<nat> {
    if ranges == [] then []
    else
      var r := ranges[|ranges| - 1];
      EventsOver(world, app, ranges[..|ranges| - 1]) + EventsBetween(world, app, r.0, r.1)
  }

  lemma EventsOverAppend(world: World, app: Address, ranges: seq<Range>, r: Range)
    ensures EventsOver(world, app, ranges + [r])
         == EventsOver(world, app, ranges) + EventsBetween(world, app, r.0, r.1)
  {
    assert (ranges + [r])[..|ranges|] == ranges;
  }

  // ---- what the log has of the base layer, whatever the heights ----

  lemma {:induction false} DeliverUpToConserves(world: World, app: Address, l: Ledger, h: nat, n: nat)
    requires world.epochLength(app) >= 1 && n <= |world.transactions(h)|
    ensures BoxIndices(LedgerDeliverUpTo(world, app, l, h, n).log) == BoxIndices(l.log)
  {
    hide LedgerDeliver, BoxIndices;
    if n > 0 {
      DeliverUpToConserves(world, app, l, h, n - 1);
      DeliverConserves(world, app, LedgerDeliverUpTo(world, app, l, h, n - 1), h, n - 1);
    }
  }

  lemma {:induction false} LogHasWhatWasRead(world: World, app: Address, p: Progress, hs: seq<nat>)
    requires world.epochLength(app) >= 1
    ensures var q := ProgressOver(world, app, p, hs);
            && q.cursor == CursorOver(world, hs, p.cursor)
            && BoxIndices(q.ledger.log)
                 == BoxIndices(p.ledger.log) + EventsOver(world, app, L1Ranges(world, hs, p.cursor))
  {
    hide L1Advance, LedgerDeliverUpTo, BoxIndices, EventsOver, EventsBetween;
    if hs == [] {
      NothingOver(world, app);
    } else {
      var front, h := hs[..|hs| - 1], hs[|hs| - 1];
      assert hs == front + [h];
      LogHasWhatWasRead(world, app, p, front);
      var before, f := ProgressOver(world, app, p, front), world.l1FinalizedHeight(h);
      var read := L1Advance(world, app, before.ledger, before.cursor, f);
      AdvanceOver(world, app, before.ledger, before.cursor, f, L1Ranges(world, front, p.cursor));
      DeliverUpToConserves(world, app, read, h, |world.transactions(h)|);
    }
  }

  lemma NothingOver(world: World, app: Address)
    ensures EventsOver(world, app, []) == []
  {
  }

  lemma AdvanceOver(
    world: World, app: Address, l: Ledger, from: nat, to: nat, ranges: seq<Range>)
    requires world.epochLength(app) >= 1
    ensures to <= from ==> L1Advance(world, app, l, from, to) == l
    ensures from < to ==>
              BoxIndices(L1Advance(world, app, l, from, to).log)
                == BoxIndices(l.log) + EventsRead(world, app, from, to)
    ensures EventsOver(world, app, ranges + RangeUpTo(from, to))
         == EventsOver(world, app, ranges)
          + (if from < to then EventsRead(world, app, from, to) else [])
  {
    if from < to {
      L1AdvanceConserves(world, app, l, from, to);
      EventsOverAppend(world, app, ranges, (from + 1, to));
    } else {
      assert ranges + [] == ranges;
    }
  }

  // ---- no event twice ----

  predicate InRange(block: nat, range: Range) {
    range.0 <= block <= range.1
  }

  /** Of the inputs in the log none are from the same InputBox event. */
  ghost predicate EventsOnce(log: seq<InputRow>) {
    forall i, j | 0 <= i < j < |log| && FromBox(log[i]) && FromBox(log[j]) :: log[i].txId != log[j].txId
  }

  /** No event of `app` lies in a block that two of the ranges cover. */
  ghost predicate NoEventCoveredTwice(world: World, app: Address, ranges: seq<Range>) {
    forall e, j, k | e in world.inputsAdded && e.app == app && 0 <= j < k < |ranges| ::
      !(InRange(e.block, ranges[j]) && InRange(e.block, ranges[k]))
  }

  lemma {:induction false} BoxIndicesHave(log: seq<InputRow>, x: nat)
    ensures x in BoxIndices(log) <==>
              exists i :: 0 <= i < |log| && FromBox(log[i]) && log[i].txId == FromInputBox(x)
  {
    if log != [] {
      BoxIndicesHave(log[..|log| - 1], x);
    }
  }

  lemma {:induction false} OnceMeansDistinct(log: seq<InputRow>)
    ensures EventsOnce(log) <==> NoDuplicates(BoxIndices(log))
  {
    hide EventsOnce, NoDuplicates;
    if log == [] {
      NothingTwice();
    } else {
      var front, last := log[..|log| - 1], log[|log| - 1];
      assert log == front + [last];
      OnceMeansDistinct(front);
      OnceWithLast(front, last);
      if FromBox(last) {
        var x := last.txId.eventIndex;
        DistinctAppend(BoxIndices(front), [x]);
        OneIsDistinct(x);
        BoxIndicesHave(front, x);
      } else {
        assert BoxIndices(front) + [] == BoxIndices(front);
      }
    }
  }

  lemma NothingTwice()
    ensures EventsOnce([]) && NoDuplicates<nat>([])
  {
  }

  lemma OneIsDistinct(x: nat)
    ensures NoDuplicates([x])
  {
  }

  lemma OnceWithLast(front: seq<InputRow>, last: InputRow)
    ensures EventsOnce(front + [last]) <==>
              EventsOnce(front)
              && (FromBox(last) ==>
                    forall i | 0 <= i < |front| && FromBox(front[i]) :: front[i].txId != last.txId)
  {
    var log := front + [last];
    assert log[|front|] == last && forall i | 0 <= i < |front| :: log[i] == front[i];
  }

  lemma DistinctAppend<T>(a: seq<T>, b: seq<T>)
    ensures NoDuplicates(a + b) <==> NoDuplicates(a) && NoDuplicates(b) && forall x | x in a :: x !in b
  {
    var ab := a + b;
    assert forall i | 0 <= i < |a| :: ab[i] == a[i];
    assert forall i | 0 <= i < |b| :: ab[|a| + i] == b[i];
    if NoDuplicates(ab) {
      forall i, j | 0 <= i < j < |b| ensures b[i] != b[j] {
        assert ab[|a| + i] != ab[|a| + j];
      }
      forall i, j | 0 <= i < |a| && 0 <= j < |b| ensures a[i] != b[j] {
        assert ab[i] != ab[|a| + j];
      }
    }
    if NoDuplicates(a) && NoDuplicates(b) && forall x | x in a :: x !in b {
      forall i, j | 0 <= i < j < |ab| ensures ab[i] != ab[j] {
        if j < |a| {
          assert a[i] != a[j];
        } else if |a| <= i {
          assert b[i - |a|] != b[j - |a|];
        } else {
          assert a[i] in a && b[j - |a|] in b;
        }
      }
    }
  }

  lemma {:induction false} InputsInHave(
    events: seq<InputAdded>, app: Address, startBlock: nat, endBlock: nat, e: InputAdded)
    requires e in events && Selected(e, app, startBlock, endBlock)
    ensures InputOf(e) in InputsIn(events, app, startBlock, endBlock)
  {
    var front, last := events[..|events| - 1], events[|events| - 1];
    assert events == front + [last];
    if e in front {
      InputsInHave(front, app, startBlock, endBlock, e);
    }
  }

  ghost predicate EventOf(world: World, app: Address, range: Range, x: nat) {
    exists e :: e in world.inputsAdded && e.app == app && InRange(e.block, range) && e.index == x
  }

  lemma EventsInAre(world: World, app: Address, range: Range)
    requires ChainOrdered(world.inputsAdded, app)
    ensures NoDuplicates(EventsBetween(world, app, range.0, range.1))
    ensures forall x: nat :: x in EventsBetween(world, app, range.0, range.1) <==> EventOf(world, app, range, x)
  {
    var inputs := InputsIn(world.inputsAdded, app, range.0, range.1);
    InputsComeFromBox(world, app, range.0, range.1);
    InputsInRise(world.inputsAdded, app, range.0, range.1);
    InputsInMembers(world.inputsAdded, app, range.0, range.1);
    forall k | 0 <= k < |inputs|
      ensures inputs[k].txId.eventIndex == inputs[k].index && EventOf(world, app, range, inputs[k].index)
    {
      assert inputs[k] in inputs;
      var i :| 0 <= i < |world.inputsAdded| && world.inputsAdded[i].app == app
        && inputs[k] == InputOf(world.inputsAdded[i]);
      assert world.inputsAdded[i] in world.inputsAdded;
    }
    forall x: nat | EventOf(world, app, range, x) ensures x in EventsBetween(world, app, range.0, range.1) {
      var e :| e in world.inputsAdded && e.app == app && InRange(e.block, range) && e.index == x;
      InputsInHave(world.inputsAdded, app, range.0, range.1, e);
      var k :| 0 <= k < |inputs| && inputs[k] == InputOf(e);
      assert EventsBetween(world, app, range.0, range.1)[k] == x;
    }
  }

  lemma OneEventPerIndex(world: World, app: Address, d: InputAdded, e: InputAdded)
    requires ChainOrdered(world.inputsAdded, app)
    requires d in world.inputsAdded && e in world.inputsAdded && d.app == app && e.app == app
    ensures d.index == e.index ==> d == e
  {
  }

  /** Reading some ranges reads no event twice exactly if none lies in a block that two of them cover. */
  lemma {:induction false} ReadOnceExactly(world: World, app: Address, ranges: seq<Range>)
    requires ChainOrdered(world.inputsAdded, app)
    ensures NoDuplicates(EventsOver(world, app, ranges)) <==> NoEventCoveredTwice(world, app, ranges)
    ensures forall x: nat :: x in EventsOver(world, app, ranges) <==>
              exists k :: 0 <= k < |ranges| && EventOf(world, app, ranges[k], x)
  {
    hide EventsBetween, InRange, EventOf, ChainOrdered;
    if ranges != [] {
      var front, r := ranges[..|ranges| - 1], ranges[|ranges| - 1];
      assert ranges == front + [r];
      ReadOnceExactly(world, app, front);
      EventsInAre(world, app, r);
      DistinctAppend(EventsOver(world, app, front), EventsBetween(world, app, r.0, r.1));
      SharedWithLast(world, app, front, r);
      assert forall k | 0 <= k < |front| :: ranges[k] == front[k];
    }
  }

  /** The last range has no event of one before exactly if the lists of indices have none in common. */
  lemma SharedWithLast(world: World, app: Address, front: seq<Range>, r: Range)
    requires ChainOrdered(world.inputsAdded, app)
    ensures NoEventCoveredTwice(world, app, front + [r]) <==>
              && NoEventCoveredTwice(world, app, front)
              && forall x: nat, k: nat | k < |front| && EventOf(world, app, front[k], x) ::
                   !EventOf(world, app, r, x)
  {
    hide InRange, ChainOrdered;
    var ranges := front + [r];
    assert forall k | 0 <= k < |front| :: ranges[k] == front[k];
    assert ranges[|front|] == r;
    if NoEventCoveredTwice(world, app, ranges) {
      forall x: nat, k: nat | k < |front| && EventOf(world, app, front[k], x)
        ensures !EventOf(world, app, r, x)
      {
        NotInBoth(world, app, ranges, k, |front|, x);
      }
    } else if NoEventCoveredTwice(world, app, front) {
      var e, j, k :| e in world.inputsAdded && e.app == app && 0 <= j < k < |ranges|
        && InRange(e.block, ranges[j]) && InRange(e.block, ranges[k]);
      assert k == |front|;
      assert EventOf(world, app, front[j], e.index) && EventOf(world, app, r, e.index);
    }
  }

  lemma NotInBoth(world: World, app: Address, ranges: seq<Range>, j: nat, k: nat, x: nat)
    requires ChainOrdered(world.inputsAdded, app) && NoEventCoveredTwice(world, app, ranges)
    requires j < k < |ranges| && EventOf(world, app, ranges[j], x)
    ensures !EventOf(world, app, ranges[k], x)
  {
    hide InRange, ChainOrdered;
    if EventOf(world, app, ranges[k], x) {
      var d :| d in world.inputsAdded && d.app == app && InRange(d.block, ranges[j]) && d.index == x;
      var e :| e in world.inputsAdded && e.app == app && InRange(e.block, ranges[k]) && e.index == x;
      OneEventPerIndex(world, app, d, e);
      assert false;
    }
  }

  lemma {:induction false} EventsOverPrepend(
    world: World, app: Address, r: Range, ranges: seq<Range>)
    ensures EventsOver(world, app, [r] + ranges)
         == EventsBetween(world, app, r.0, r.1) + EventsOver(world, app, ranges)
  {
    hide EventsBetween;
    if ranges == [] {
      assert [r][..0] == [] && [r] + ranges == [r];
    } else {
      EventsOverPrepend(world, app, r, ranges[..|ranges| - 1]);
      assert ([r] + ranges)[..|ranges|] == [r] + ranges[..|ranges| - 1];
    }
  }

  /** With a log that has the events after `first` up to the cursor, and over blocks with any finalized
      heights: no event gets two rows, if and only if none lies in a block that two ranges cover, what
      had been read before counting as one. */
  lemma RowsPerEventExactly(world: World, app: Address, p: Progress, hs: seq<nat>, first: nat)
    requires world.epochLength(app) >= 1 && ChainOrdered(world.inputsAdded, app)
    requires BoxIndices(p.ledger.log) == EventsRead(world, app, first, p.cursor)
    ensures EventsOnce(ProgressOver(world, app, p, hs).ledger.log) <==>
            NoEventCoveredTwice(world, app, [(first + 1, p.cursor)] + L1Ranges(world, hs, p.cursor))
  {
    hide BoxIndices, EventsBetween, EventsOver, L1Ranges, ProgressOver, EventsOnce, NoEventCoveredTwice,
      ChainOrdered;
    LogHasWhatWasRead(world, app, p, hs);
    OnceMeansDistinct(ProgressOver(world, app, p, hs).ledger.log);
    EventsOverPrepend(world, app, (first + 1, p.cursor), L1Ranges(world, hs, p.cursor));
    ReadOnceExactly(world, app, [(first + 1, p.cursor)] + L1Ranges(world, hs, p.cursor));
  }

  // ---- on the tables ----

  /** Going back within the epoch of the next block leaves the invariant. */
  lemma SameHorizon(world: World, db: Db, app: Address, from: nat, to: nat)
    requires AppInvariant(world, db, app, from)
    requires CalculateEpochIndex(world.epochLength(app), from + 1)
          == CalculateEpochIndex(world.epochLength(app), to + 1)
    ensures AppInvariant(world, db, app, to)
  {
  }

  /** Where a finalized height falls it stays in the epoch of the block that was to be read next. */
  ghost predicate FallsWithinEpoch(world: World, app: Address, hs: seq<nat>, cursor: nat)
    requires world.epochLength(app) >= 1
  {
    forall k | 0 <= k < |hs| ::
      var from, f := CursorOver(world, hs[..k], cursor), world.l1FinalizedHeight(hs[k]);
      from <= f || CalculateEpochIndex(world.epochLength(app), f + 1)
                == CalculateEpochIndex(world.epochLength(app), from + 1)
  }

  lemma FallsBefore(world: World, app: Address, hs: seq<nat>, cursor: nat)
    requires world.epochLength(app) >= 1 && hs != [] && FallsWithinEpoch(world, app, hs, cursor)
    ensures FallsWithinEpoch(world, app, hs[..|hs| - 1], cursor)
    ensures var from := CursorOver(world, hs[..|hs| - 1], cursor);
            var f := world.l1FinalizedHeight(hs[|hs| - 1]);
            from <= f || CalculateEpochIndex(world.epochLength(app), f + 1)
                      == CalculateEpochIndex(world.epochLength(app), from + 1)
  {
    hide CalculateEpochIndex, CursorOver;
    var front := hs[..|hs| - 1];
    assert forall k | 0 <= k < |front| :: front[..k] == hs[..k] && front[k] == hs[k];
  }

  lemma VisitFollows(world: World, db: Db, app: Address, snapshot: AppRow, h: nat, cursor: nat)
    requires GoodWorld(world, app) && AppInvariant(world, db, app, cursor)
    requires var f := world.l1FinalizedHeight(h);
             cursor <= f || CalculateEpochIndex(world.epochLength(app), f + 1)
                         == CalculateEpochIndex(world.epochLength(app), cursor + 1)
    requires world.inputStoreFault(app, world.l1FinalizedHeight(h)).None?
    ensures var after, f := Visit(world, db, app, snapshot, h, cursor), world.l1FinalizedHeight(h);
            && AppInvariant(world, after, app, f)
            && Progress(LedgerOf(after, app), f)
                 == VisitBlock(world, app, Progress(LedgerOf(db, app), cursor), h)
  {
    hide AppInvariant, IngestBatch, LedgerDeliverUpTo, DeliverUpTo, CalculateEpochIndex, LedgerOf;
    var f := world.l1FinalizedHeight(h);
    if cursor <= f {
      VisitRefines(world, db, app, snapshot, h, cursor);
    } else {
      SameHorizon(world, db, app, cursor, f);
      DeliverUpToRefines(world, db, app, h, |world.transactions(h)|);
    }
  }

  /** Over such heights the tables follow the ledger, as they do over heights that never fall. */
  lemma {:induction false} VisitAllFollows(
    world: World, db: Db, app: Address, snapshot: AppRow, hs: seq<nat>, cursor: nat,
    mark: Option<nat>)
    requires GoodWorld(world, app) && AppInvariant(world, db, app, cursor)
    requires FallsWithinEpoch(world, app, hs, cursor) && StoresSucceed(world, app, hs)
    ensures var after := VisitAll(world, db, app, snapshot, hs, cursor, mark);
            var end := CursorOver(world, hs, cursor);
            && AppInvariant(world, after, app, end)
            && Progress(LedgerOf(after, app), end)
                 == ProgressOver(world, app, Progress(LedgerOf(db, app), cursor), hs)
  {
    hide AppInvariant, Visit, VisitBlock, GoodWorld, FallsWithinEpoch, CalculateEpochIndex, StoreMark,
      LedgerOf;
    InvariantBasics(world, db, app, cursor);
    if hs != [] {
      var front, h := hs[..|hs| - 1], hs[|hs| - 1];
      var before := VisitAll(world, db, app, snapshot, front, cursor, mark);
      var middle := CursorOver(world, front, cursor);
      FallsBefore(world, app, hs, cursor);
      VisitAllFollows(world, db, app, snapshot, front, cursor, mark);
      VisitFollows(world, before, app, snapshot, h, middle);
      MarkingIsQuiet(world, Visit(world, before, app, snapshot, h, middle), app, mark,
                     world.l1FinalizedHeight(h));
    }
  }

  /** So no InputBox event has two rows in the tables, if and only if none lies in a block that two
      ranges cover. */
  lemma StoredOnceExactly(
    world: World, db: Db, app: Address, snapshot: AppRow, hs: seq<nat>, cursor: nat,
    mark: Option<nat>, first: nat)
    requires GoodWorld(world, app) && AppInvariant(world, db, app, cursor)
    requires FallsWithinEpoch(world, app, hs, cursor) && StoresSucceed(world, app, hs)
    requires BoxIndices(LedgerOf(db, app).log) == EventsRead(world, app, first, cursor)
    ensures var after := VisitAll(world, db, app, snapshot, hs, cursor, mark);
            && Dense(after, app)
            && ((forall i: nat, j: nat | i < j < Counter(after, app)
                   && FromBox(after.inputs[(app, i)]) && FromBox(after.inputs[(app, j)]) ::
                   after.inputs[(app, i)].txId != after.inputs[(app, j)].txId)
                <==> NoEventCoveredTwice(world, app,
                                         [(first + 1, cursor)] + L1Ranges(world, hs, cursor)))
  {
    hide AppInvariant, VisitAll, ProgressOver, FallsWithinEpoch, StoresSucceed, BoxIndices, EventsBetween,
      NoEventCoveredTwice, L1Ranges, ChainOrdered;
    VisitAllFollows(world, db, app, snapshot, hs, cursor, mark);
    var after := VisitAll(world, db, app, snapshot, hs, cursor, mark);
    InvariantBasics(world, db, app, cursor);
    InvariantBasics(world, after, app, CursorOver(world, hs, cursor));
    RowsPerEventExactly(world, app, Progress(LedgerOf(db, app), cursor), hs, first);
    OnceOnTables(after, app);
  }

  lemma OnceOnTables(db: Db, app: Address)
    requires Dense(db, app)
    ensures EventsOnce(LedgerOf(db, app).log) <==>
            forall i: nat, j: nat | i < j < Counter(db, app)
              && FromBox(db.inputs[(app, i)]) && FromBox(db.inputs[(app, j)]) ::
              db.inputs[(app, i)].txId != db.inputs[(app, j)].txId
  {
    var log := LedgerOf(db, app).log;
    assert forall i: nat | i < |log| :: log[i] == db.inputs[(app, i)];
  }
}
