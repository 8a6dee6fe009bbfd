/** What a visited block does about claims and outputs
    (internal/espressoreader/espresso_reader.go, readL1; internal/evmreader/claim.go and output.go).

    When the finalized height moves, the acceptances and the executions up to it are looked at. The
    statements are about the tables before and after, and about the events of the chain. */
module BaseLayerChecks {
  import opened Model
  import opened EpochMath
  import opened Tables
  import opened World
  import opened Ingest
  import opened Ledger
  import opened IngestRefinement
  import opened EspressoInput
  import opened EspressoRefinement
  import opened Claims
  import opened ClaimCursor
  import opened Outputs
  import opened ReaderSteps
  import opened Coverage
  import opened RunRefinement
  import opened Interleaving

  // ---- outputs ----

  /** An execution of an output of `app` from block `first` to block `to`. */
  predicate Executed(world: World, app: Address, first: nat, to: nat, e: OutputExecuted) {
    e in world.outputsExecuted && e.app == app && first <= e.block <= to
  }

  /** The first block whose executions are looked at, if the row of the application has this cursor. */
  function FirstOutputBlock(world: World, lastOutputCheck: nat): nat {
    if lastOutputCheck < world.inputBoxDeploymentBlock then world.inputBoxDeploymentBlock + 1
    else lastOutputCheck + 1
  }

  /** Every output executed in the blocks is stored, with the bytes it was executed with. */
  ghost predicate AllStored(
    world: World, outputs: map<OutputKey, OutputRow>, app: Address, first: nat, to: nat)
  {
    forall e | Executed(world, app, first, to, e) ::
      (app, e.outputIndex) in outputs && outputs[(app, e.outputIndex)].raw == e.output
  }

  /** `row` has the hash of an execution of the output in these blocks. */
  ghost predicate HasHashOf(
    world: World, app: Address, first: nat, to: nat, index: nat, row: OutputRow)
  {
    exists e :: Executed(world, app, first, to, e) && e.outputIndex == index
      && row.txHash == Some(e.txHash)
  }

  /** Nothing but hashes has changed, and those that have are of executions in these blocks. */
  ghost predicate OnlyMarked(
    world: World, before: map<OutputKey, OutputRow>, after: map<OutputKey, OutputRow>, app: Address,
    first: nat, to: nat)
  {
    && after.Keys == before.Keys
    && forall key: OutputKey | key in before ::
         && after[key] == before[key].(txHash := after[key].txHash)
         && (after[key] != before[key] ==>
               key.0 == app && HasHashOf(world, app, first, to, key.1, after[key]))
  }

  /** Every executed output has such a hash, nothing else of an output has changed, and the cursor is at
      the end. */
  ghost predicate OutputsMarked(
    world: World, before: map<OutputKey, OutputRow>, after: Db, app: Address, first: nat, to: nat)
  {
    && app in after.apps && after.apps[app].lastOutputCheckBlock == to
    && OnlyMarked(world, before, after.outputs, app, first, to)
    && forall e | Executed(world, app, first, to, e) ::
         (app, e.outputIndex) in before
         && HasHashOf(world, app, first, to, e.outputIndex, after.outputs[(app, e.outputIndex)])
  }

  /** The outputs have been checked from one block to another, or there was a reason not to. */
  ghost predicate OutputsChecked(
    world: World, before: Db, after: Db, app: Address, lastOutputCheck: nat, to: nat)
  {
    var first := FirstOutputBlock(world, lastOutputCheck);
    if first <= to && AllStored(world, before.outputs, app, first, to)
      && !world.outputUpdateFails(app, to)
    then OutputsMarked(world, before.outputs, after, app, first, to)
    else
      && after.outputs == before.outputs
      && app in before.apps && app in after.apps
      && after.apps[app].lastOutputCheckBlock == before.apps[app].lastOutputCheckBlock
  }

  lemma MarksHave(
    world: World, outputs: map<OutputKey, OutputRow>, app: Address, first: nat, to: nat,
    events: seq<OutputExecuted>)
    requires forall e :: e in events ==> Executed(world, app, first, to, e)
    requires forall e | e in events :: Known(outputs, e)
    ensures var after := MarkOutputs(outputs, events);
            && OnlyMarked(world, outputs, after, app, first, to)
            && forall e | e in events ::
                 (app, e.outputIndex) in outputs
                 && HasHashOf(world, app, first, to, e.outputIndex, after[(app, e.outputIndex)])
  {
    if events != [] {
      var front, e := events[..|events| - 1], events[|events| - 1];
      assert events == front + [e] && e in events;
      assert forall x | x in front :: x in events;
      MarksHave(world, outputs, app, first, to, front);
      assert Executed(world, app, first, to, e);
    }
  }

  lemma CheckedOutputs(world: World, db: Db, app: Address, lastOutputCheck: nat, to: nat)
    requires app in db.apps
    ensures OutputsChecked(world, db, CheckOutputs(world, db, app, lastOutputCheck, to), app,
                           lastOutputCheck, to)
  {
    hide OutputsIn, MarkOutputs, HasHashOf;
    var first := FirstOutputBlock(world, lastOutputCheck);
    var start := OutputStart(world, lastOutputCheck);
    assert first == start + 1;
    var events := OutputsIn(world.outputsExecuted, app, first, to);
    OutputsInMembers(world.outputsExecuted, app, first, to);
    assert forall e :: e in events <==> Executed(world, app, first, to, e);
    assert AllStored(world, db.outputs, app, first, to) <==>
        forall e | e in events :: Known(db.outputs, e);
    if forall e | e in events :: Known(db.outputs, e) {
      MarksHave(world, db.outputs, app, first, to, events);
    }
  }

  // ---- claims ----

  /** The first block whose acceptances are looked at. */
  function FirstClaimBlock(world: World, lastClaimCheck: nat): nat {
    if lastClaimCheck < world.inputBoxDeploymentBlock then world.inputBoxDeploymentBlock
    else lastClaimCheck + 1
  }

  /** The stored epoch an acceptance is about is the one of the application that ends with the claim's last
      block; no other can match. */
  lemma MatchesItsEpoch(world: World, db: Db, app: Address, e: ClaimAcceptance)
    requires world.epochLength(app) >= 1 && e.app == app && CanonicalWindows(world, db, app)
    ensures Matches(world, db.epochs, e) <==>
              exists key: EpochKey | key in db.epochs ::
                && key.0 == app
                && db.epochs[key].lastBlock == e.lastBlock && db.epochs[key].claimHash == Some(e.claim)
                && (db.epochs[key].status == ClaimSubmitted || db.epochs[key].status == ClaimAccepted)
    ensures forall key: EpochKey | key in db.epochs && key.0 == app
                && db.epochs[key].lastBlock == e.lastBlock :: key == ClaimKey(world, e)
  {
    forall key: EpochKey | key in db.epochs && key.0 == app && db.epochs[key].lastBlock == e.lastBlock
      ensures key == ClaimKey(world, e)
    {
      WindowOfBlock(world.epochLength(app), key.1, e.lastBlock);
    }
  }

  /** The acceptances up to a block have been gone through as far as they are good: of the epochs exactly
      those of the longest good prefix are settled, and the cursor is at the last event that got its
      epoch accepted. */
  ghost predicate ClaimsChecked(
    world: World, before: Db, after: Db, app: Address, lastClaimCheck: nat, to: nat)
    requires world.epochLength(app) >= 1
  {
    var first := FirstClaimBlock(world, lastClaimCheck);
    && app in before.apps && app in after.apps
    && if to < first then
         after.epochs == before.epochs
         && after.apps[app].lastClaimCheckBlock == before.apps[app].lastClaimCheckBlock
       else
         ClaimsAreOfApp(world, app, first, to);
         var events := ClaimEvents(world, app, first, to);
         forall k: nat | LongestGoodPrefix(world, before.epochs, app, to, events, k) ::
           && after.epochs == Settle(before.epochs, ClaimKeys(world, app, to, events, k))
           && after.apps[app].lastClaimCheckBlock == CursorAfter(world, before, app, to, events, k)
  }

  lemma CheckedClaims(world: World, db: Db, app: Address, lastClaimCheck: nat, to: nat)
    requires world.epochLength(app) >= 1 && app in db.apps
    ensures ClaimsChecked(world, db, CheckClaims(world, db, app, lastClaimCheck, to), app,
                          lastClaimCheck, to)
  {
    hide ClaimEvents, ClaimPass, AllGood, Good, ClaimKeys, CursorAfter, Settle;
    var first := FirstClaimBlock(world, lastClaimCheck);
    ClaimsStartThere(world, lastClaimCheck);
    if first <= to {
      ClaimsAreOfApp(world, app, first, to);
      var events := ClaimEvents(world, app, first, to);
      GoodToBeginWith(world, db, app, to, events);
    }
  }

  lemma ClaimsStartThere(world: World, lastClaimCheck: nat)
    ensures FirstClaimBlock(world, lastClaimCheck) == ClaimStart(world, lastClaimCheck) + 1
  {
  }

  /** There is a longest good prefix, and it says what the pass does. */
  lemma GoodToBeginWith(
    world: World, db: Db, app: Address, to: nat, events: seq<ClaimAcceptance>)
    requires OfOneApp(world, app, events) && app in db.apps
    ensures app in ClaimPass(world, db, app, to, events, 0).apps
    ensures forall k: nat | LongestGoodPrefix(world, db.epochs, app, to, events, k) ::
              var after := ClaimPass(world, db, app, to, events, 0);
              && after.epochs == Settle(db.epochs, ClaimKeys(world, app, to, events, k))
              && after.apps == db.apps[app := db.apps[app].(
                   lastClaimCheckBlock := CursorAfter(world, db, app, to, events, k))]
  {
    hide ClaimPass, Good, ClaimKeys, CursorAfter, Settle;
    forall k: nat | LongestGoodPrefix(world, db.epochs, app, to, events, k)
      ensures var after := ClaimPass(world, db, app, to, events, 0);
              && after.epochs == Settle(db.epochs, ClaimKeys(world, app, to, events, k))
              && after.apps == db.apps[app := db.apps[app].(
                   lastClaimCheckBlock := CursorAfter(world, db, app, to, events, k))]
    {
      PassAcceptsLongestGoodPrefix(world, db, app, to, events, k);
    }
    var k := LongestPrefixFrom(world, db.epochs, app, to, events, 0);
  }

  // ---- one read of the base layer ----

  /** Storing a batch leaves outputs and the two check cursors alone, also when the store fails. */
  lemma IngestLeavesChecks(world: World, db: Db, app: Address, from: nat, to: nat)
    requires world.epochLength(app) >= 1 && app in db.apps
    ensures var after := IngestBatch(world, db, app, from, to);
            && app in after.apps && after.outputs == db.outputs
            && after.apps[app].lastClaimCheckBlock == db.apps[app].lastClaimCheckBlock
            && after.apps[app].lastOutputCheckBlock == db.apps[app].lastOutputCheckBlock
  {
    hide BatchEntries, InputsIn, StoreEntries, EntriesStmts, CurrentEpochIsOpen, Survives;
    StoreLeavesChecks(AdvanceCounter(db, app, |InputsIn(world.inputsAdded, app, from, to)|),
                      BatchEntries(world, db, app, from, to), to, app);
  }

  lemma StoreLeavesChecks(db: Db, entries: seq<Entry>, block: nat, app: Address)
    requires app in db.apps
    ensures StoreEntries(db, entries, block, app).Some? ==>
              var after := StoreEntries(db, entries, block, app).value;
              && app in after.apps && after.outputs == db.outputs
              && after.apps[app].lastClaimCheckBlock == db.apps[app].lastClaimCheckBlock
              && after.apps[app].lastOutputCheckBlock == db.apps[app].lastOutputCheckBlock
  {
    hide Run, EntriesStmts;
    RunKeepsApps(db, EntriesStmts(entries));
  }

  lemma OutputsLeaveClaims(world: World, db: Db, app: Address, lastOutputCheck: nat, to: nat)
    requires app in db.apps
    ensures var after := CheckOutputs(world, db, app, lastOutputCheck, to);
            && app in after.apps && after.epochs == db.epochs
            && after.apps[app].lastClaimCheckBlock == db.apps[app].lastClaimCheckBlock
  {
    hide Blocked, MarkedThrough;
    PassIsAllOrNothing(world, db, app, lastOutputCheck, to);
  }

  /** If the finalized height is above the local cursor, the inputs up to it are stored, whether that
      works or not, and then claims and outputs are checked up to it; if not, nothing happens. */
  lemma ReadL1Checks(world: World, db: Db, app: Address, snapshot: AppRow, h: nat, cursor: nat)
    requires world.epochLength(app) >= 1 && app in db.apps
    ensures var f := world.l1FinalizedHeight(h);
            var after := ReadL1(world, db, app, snapshot, h, cursor);
            if f <= cursor then after == db
            else
              var read := IngestBatch(world, db, app, cursor + 1, f);
              && ClaimsChecked(world, read, after, app, snapshot.lastClaimCheckBlock, f)
              && OutputsChecked(world, db, after, app, snapshot.lastOutputCheckBlock, f)
  {
    hide IngestBatch, CheckClaims, CheckOutputs, ClaimsChecked, OutputsChecked;
    var f := world.l1FinalizedHeight(h);
    if f > cursor {
      var read := IngestBatch(world, db, app, cursor + 1, f);
      IngestLeavesChecks(world, db, app, cursor + 1, f);
      var claimed := CheckClaims(world, read, app, snapshot.lastClaimCheckBlock, f);
      CheckedClaims(world, read, app, snapshot.lastClaimCheckBlock, f);
      ClaimsAreQuiet(world, read, app, snapshot.lastClaimCheckBlock, f);
      ClaimsKeepOutputCursor(world, read, app, snapshot.lastClaimCheckBlock, f);
      var after := CheckOutputs(world, claimed, app, snapshot.lastOutputCheckBlock, f);
      CheckedOutputs(world, claimed, app, snapshot.lastOutputCheckBlock, f);
      OutputsLeaveClaims(world, claimed, app, snapshot.lastOutputCheckBlock, f);
      SameClaims(world, read, claimed, after, app, snapshot.lastClaimCheckBlock, f);
      SameOutputs(world, claimed, db, after, after, app, snapshot.lastOutputCheckBlock, f);
    }
  }

  lemma SameClaims(
    world: World, before: Db, after: Db, other: Db, app: Address, lastClaimCheck: nat, to: nat)
    requires world.epochLength(app) >= 1
    requires ClaimsChecked(world, before, after, app, lastClaimCheck, to)
    requires app in other.apps && other.epochs == after.epochs
    requires app in after.apps
             && other.apps[app].lastClaimCheckBlock == after.apps[app].lastClaimCheckBlock
    ensures ClaimsChecked(world, before, other, app, lastClaimCheck, to)
  {
    hide ClaimEvents, AllGood, Good, ClaimKeys, CursorAfter, Settle;
    ClaimsAreOfApp(world, app, FirstClaimBlock(world, lastClaimCheck), to);
  }

  /** It is the outputs and the output cursor alone that say whether outputs have been checked. */
  lemma SameOutputs(
    world: World, before: Db, start: Db, after: Db, end: Db, app: Address, lastOutputCheck: nat, to: nat)
    requires OutputsChecked(world, before, after, app, lastOutputCheck, to)
    requires app in before.apps && app in after.apps && app in start.apps && app in end.apps
    requires start.outputs == before.outputs && end.outputs == after.outputs
    requires start.apps[app].lastOutputCheckBlock == before.apps[app].lastOutputCheckBlock
    requires end.apps[app].lastOutputCheckBlock == after.apps[app].lastOutputCheckBlock
    ensures OutputsChecked(world, start, end, app, lastOutputCheck, to)
  {
    hide AllStored, HasHashOf, Executed;
  }

  // ---- one block ----

  /** Outputs and check cursors are as they were, and an epoch has at most been opened again, if `f` was
      its last block. */
  ghost predicate ChecksKept(before: Db, after: Db, app: Address, f: nat) {
    && app in before.apps && app in after.apps && after.outputs == before.outputs
    && after.apps[app].lastClaimCheckBlock == before.apps[app].lastClaimCheckBlock
    && after.apps[app].lastOutputCheckBlock == before.apps[app].lastOutputCheckBlock
    && forall key: EpochKey | key in before.epochs ::
         key in after.epochs && KeptOrReopened(before.epochs[key], after.epochs[key], f)
  }

  predicate KeptOrReopened(before: EpochRow, after: EpochRow, f: nat) {
    after == before || (before.lastBlock == f && after == before.(status := Open))
  }

  lemma ChecksKeptChain(a: Db, b: Db, c: Db, app: Address, f: nat)
    requires ChecksKept(a, b, app, f) && ChecksKept(b, c, app, f)
    ensures ChecksKept(a, c, app, f)
  {
  }

  lemma DeliverKeepsChecks(world: World, db: Db, app: Address, h: nat, i: nat)
    requires i < |world.transactions(h)|
    requires AppInvariant(world, db, app, world.l1FinalizedHeight(h))
    ensures ChecksKept(db, DeliverTx(world, db, app, h, i), app, world.l1FinalizedHeight(h))
  {
    hide AppInvariant, DeliverTx, Accepts, LedgerOf;
    InvariantBasics(world, db, app, world.l1FinalizedHeight(h));
    DeliverFrame(world, db, app, h, i);
    if Accepts(world, app, LedgerOf(db, app), h, i) {
      forall key: EpochKey | key in db.epochs
        ensures var after := DeliverTx(world, db, app, h, i);
                key in after.epochs
                && KeptOrReopened(db.epochs[key], after.epochs[key], world.l1FinalizedHeight(h))
      {
        EspressoReopens(world, db, app, h, i, key);
      }
    }
  }

  lemma {:induction false} DeliverUpToKeepsChecks(world: World, db: Db, app: Address, h: nat, n: nat)
    requires n <= |world.transactions(h)|
    requires AppInvariant(world, db, app, world.l1FinalizedHeight(h))
    ensures ChecksKept(db, DeliverUpTo(world, db, app, h, n), app, world.l1FinalizedHeight(h))
  {
    hide AppInvariant, DeliverTx, LedgerOf, ChecksKept;
    InvariantBasics(world, db, app, world.l1FinalizedHeight(h));
    if n == 0 {
      NothingDone(db, app, world.l1FinalizedHeight(h));
    } else {
      var before := DeliverUpTo(world, db, app, h, n - 1);
      DeliverUpToKeepsChecks(world, db, app, h, n - 1);
      DeliverUpToRefines(world, db, app, h, n - 1);
      DeliverKeepsChecks(world, before, app, h, n - 1);
      ChecksKeptChain(db, before, DeliverUpTo(world, db, app, h, n), app, world.l1FinalizedHeight(h));
    }
  }

  lemma NothingDone(db: Db, app: Address, f: nat)
    requires app in db.apps
    ensures ChecksKept(db, db, app, f)
  {
  }

  /** The epochs are these, but for one that ends with block `f` and may have been opened again. */
  ghost predicate Stand(epochs: map<EpochKey, EpochRow>, after: map<EpochKey, EpochRow>, f: nat) {
    forall key: EpochKey | key in epochs ::
      key in after && KeptOrReopened(epochs[key], after[key], f)
  }

  /** The acceptances have been gone through as in `ClaimsChecked`, and what that did still stands. */
  ghost predicate ClaimsStand(
    world: World, before: Db, after: Db, app: Address, lastClaimCheck: nat, to: nat)
    requires world.epochLength(app) >= 1
  {
    var first := FirstClaimBlock(world, lastClaimCheck);
    && app in before.apps && app in after.apps
    && if to < first then
         Stand(before.epochs, after.epochs, to)
         && after.apps[app].lastClaimCheckBlock == before.apps[app].lastClaimCheckBlock
       else
         ClaimsAreOfApp(world, app, first, to);
         var events := ClaimEvents(world, app, first, to);
         forall k: nat | LongestGoodPrefix(world, before.epochs, app, to, events, k) ::
           && Stand(Settle(before.epochs, ClaimKeys(world, app, to, events, k)), after.epochs, to)
           && after.apps[app].lastClaimCheckBlock == CursorAfter(world, before, app, to, events, k)
  }

  lemma StandsAtFirst(
    world: World, before: Db, after: Db, app: Address, lastClaimCheck: nat, to: nat)
    requires world.epochLength(app) >= 1
    requires ClaimsChecked(world, before, after, app, lastClaimCheck, to)
    ensures ClaimsStand(world, before, after, app, lastClaimCheck, to)
  {
    hide ClaimEvents, AllGood, Good, ClaimKeys, CursorAfter, Settle;
    ClaimsAreOfApp(world, app, FirstClaimBlock(world, lastClaimCheck), to);
  }

  lemma StandsOn(
    world: World, before: Db, middle: Db, after: Db, app: Address, lastClaimCheck: nat, to: nat)
    requires world.epochLength(app) >= 1
    requires ClaimsStand(world, before, middle, app, lastClaimCheck, to)
    requires ChecksKept(middle, after, app, to)
    ensures ClaimsStand(world, before, after, app, lastClaimCheck, to)
  {
    hide ClaimEvents, AllGood, Good, ClaimKeys, CursorAfter, Settle;
    ClaimsAreOfApp(world, app, FirstClaimBlock(world, lastClaimCheck), to);
  }

  /** With claims accepted later than their epochs end, no epoch of the good prefix is opened again: they
      are all accepted. */
  lemma GoodClaimsStayAccepted(
    world: World, before: Db, after: Db, app: Address, lastClaimCheck: nat, to: nat, k: nat, j: nat)
    requires world.epochLength(app) >= 1 && FirstClaimBlock(world, lastClaimCheck) <= to
    requires HonestNode(world, app) && ClaimsComeLater(world, app)
    requires ClaimsStand(world, before, after, app, lastClaimCheck, to)
    requires var events := ClaimEvents(world, app, FirstClaimBlock(world, lastClaimCheck), to);
             OfOneApp(world, app, events)
             && LongestGoodPrefix(world, before.epochs, app, to, events, k)
             && j < k && !world.claimUpdateFails(app, to, j)
    ensures var events := ClaimEvents(world, app, FirstClaimBlock(world, lastClaimCheck), to);
            var key := ClaimKey(world, events[j]);
            && key in before.epochs && key in after.epochs
            && after.epochs[key] == before.epochs[key].(status := ClaimAccepted)
  {
    hide ClaimEvents, EarlierSettled, CursorAfter, ClaimKey;
    var first := FirstClaimBlock(world, lastClaimCheck);
    ClaimsAreOfApp(world, app, first, to);
    AnswerIsChain(world, app, first, to);
    var events := ClaimEvents(world, app, first, to);
    assert Good(world, before.epochs, app, to, events, j);
    assert events[j] in events;
  }

  // ---- visiting a block ----

  /** After a visited block whose finalized height is above the local cursor, claims and outputs have been
      checked up to it, and stay so while its transactions are delivered; a block that names no later
      height leaves them alone. */
  lemma VisitChecks(world: World, db: Db, app: Address, snapshot: AppRow, h: nat, cursor: nat)
    requires GoodWorld(world, app) && AppInvariant(world, db, app, cursor)
    requires cursor <= world.l1FinalizedHeight(h)
    requires world.inputStoreFault(app, world.l1FinalizedHeight(h)).None?
    ensures var f := world.l1FinalizedHeight(h);
            var after := Visit(world, db, app, snapshot, h, cursor);
            if f == cursor then ChecksKept(db, after, app, f)
            else
              var read := IngestBatch(world, db, app, cursor + 1, f);
              && ClaimsStand(world, read, after, app, snapshot.lastClaimCheckBlock, f)
              && OutputsChecked(world, db, after, app, snapshot.lastOutputCheckBlock, f)
  {
    hide AppInvariant, IngestBatch, ReadL1, ClaimsChecked, ClaimsStand, OutputsChecked, DeliverUpTo;
    InvariantBasics(world, db, app, cursor);
    var f := world.l1FinalizedHeight(h);
    var middle := ReadL1(world, db, app, snapshot, h, cursor);
    var after := Visit(world, db, app, snapshot, h, cursor);
    ReadL1Refines(world, db, app, snapshot, h, cursor);
    ReadL1Checks(world, db, app, snapshot, h, cursor);
    DeliverUpToKeepsChecks(world, middle, app, h, |world.transactions(h)|);
    if f > cursor {
      var read := IngestBatch(world, db, app, cursor + 1, f);
      StandsAtFirst(world, read, middle, app, snapshot.lastClaimCheckBlock, f);
      StandsOn(world, read, middle, after, app, snapshot.lastClaimCheckBlock, f);
      SameOutputs(world, db, db, middle, after, app, snapshot.lastOutputCheckBlock, f);
    }
  }

  // ---- many blocks ----

  /** Block `k` is the one at which the finalized height got to where it is after all of them. */
  predicate ReadsLast(world: World, hs: seq<nat>, cursor: nat, k: nat) {
    k < |hs| && CursorOver(world, hs[..k], cursor) < world.l1FinalizedHeight(hs[k])
      == CursorOver(world, hs, cursor)
  }

  lemma {:induction false} SomeBlockReadsLast(world: World, hs: seq<nat>, cursor: nat) returns (k: nat)
    requires RisesOver(world, hs, cursor) && CursorOver(world, hs, cursor) != cursor
    ensures ReadsLast(world, hs, cursor, k)
  {
    var front := hs[..|hs| - 1];
    k := |hs| - 1;
    if CursorOver(world, front, cursor) == CursorOver(world, hs, cursor) {
      k := SomeBlockReadsLast(world, front, cursor);
      assert front[..k] == hs[..k];
    }
  }

  lemma ReadEarlier(world: World, hs: seq<nat>, cursor: nat, k: nat)
    requires RisesOver(world, hs, cursor) && ReadsLast(world, hs, cursor, k) && k < |hs| - 1
    ensures var front := hs[..|hs| - 1];
            && ReadsLast(world, front, cursor, k) && front[..k] == hs[..k]
            && CursorOver(world, front, cursor) == CursorOver(world, hs, cursor)
  {
  }

  /** A visit that does not read, and its mark. */
  lemma IdleVisit(
    world: World, db: Db, app: Address, snapshot: AppRow, h: nat, mark: Option<nat>)
    requires GoodWorld(world, app) && AppInvariant(world, db, app, world.l1FinalizedHeight(h))
    requires world.inputStoreFault(app, world.l1FinalizedHeight(h)).None?
    ensures var f := world.l1FinalizedHeight(h);
            ChecksKept(db, StoreMark(Visit(world, db, app, snapshot, h, f), app, mark), app, f)
  {
    hide AppInvariant, Visit;
    var f := world.l1FinalizedHeight(h);
    VisitChecks(world, db, app, snapshot, h, f);
    var visited := Visit(world, db, app, snapshot, h, f);
    MarkKeepsChecks(visited, app, mark, f);
    ChecksKeptChain(db, visited, StoreMark(visited, app, mark), app, f);
  }

  lemma MarkKeepsChecks(db: Db, app: Address, mark: Option<nat>, f: nat)
    requires app in db.apps
    ensures ChecksKept(db, StoreMark(db, app, mark), app, f)
  {
  }

  /** The two facts `VisitsCheck` is about, from one set of tables to another. */
  ghost predicate CheckedUpTo(
    world: World, before: Db, read: Db, after: Db, app: Address, snapshot: AppRow, end: nat)
    requires world.epochLength(app) >= 1
  {
    && ClaimsStand(world, read, after, app, snapshot.lastClaimCheckBlock, end)
    && OutputsChecked(world, before, after, app, snapshot.lastOutputCheckBlock, end)
  }

  lemma CheckedStill(
    world: World, before: Db, read: Db, middle: Db, after: Db, app: Address, snapshot: AppRow, end: nat)
    requires world.epochLength(app) >= 1 && app in before.apps
    requires CheckedUpTo(world, before, read, middle, app, snapshot, end)
    requires ChecksKept(middle, after, app, end)
    ensures CheckedUpTo(world, before, read, after, app, snapshot, end)
  {
    hide ClaimsStand, OutputsChecked;
    StandsOn(world, read, middle, after, app, snapshot.lastClaimCheckBlock, end);
    SameOutputs(world, before, before, middle, after, app, snapshot.lastOutputCheckBlock, end);
  }

  lemma VisitAllStep(
    world: World, db: Db, app: Address, snapshot: AppRow, front: seq<nat>, h: nat, cursor: nat,
    mark: Option<nat>)
    requires world.epochLength(app) >= 1
    ensures VisitAll(world, db, app, snapshot, front + [h], cursor, mark)
         == StoreMark(Visit(world, VisitAll(world, db, app, snapshot, front, cursor, mark), app,
                            snapshot, h, CursorOver(world, front, cursor)), app, mark)
  {
    hide Visit;
    assert (front + [h])[..|front + [h]| - 1] == front;
  }

  lemma OneBlock(world: World, app: Address, h: nat, cursor: nat)
    requires RisesOver(world, [h], cursor) && StoresSucceed(world, app, [h])
    ensures cursor <= world.l1FinalizedHeight(h)
    ensures world.inputStoreFault(app, world.l1FinalizedHeight(h)).None?
  {
    assert [h][0] == h;
  }

  /** The last of some blocks, and the tables before it is visited. */
  lemma LastVisit(
    world: World, db: Db, app: Address, snapshot: AppRow, front: seq<nat>, h: nat, cursor: nat,
    mark: Option<nat>)
    requires GoodWorld(world, app) && AppInvariant(world, db, app, cursor)
    requires RisesOver(world, front + [h], cursor) && StoresSucceed(world, app, front + [h])
    ensures RisesOver(world, front, cursor) && StoresSucceed(world, app, front)
    ensures world.inputStoreFault(app, world.l1FinalizedHeight(h)).None?
    ensures var middle := CursorOver(world, front, cursor);
            var earlier := VisitAll(world, db, app, snapshot, front, cursor, mark);
            && cursor <= middle <= world.l1FinalizedHeight(h)
            && app in earlier.apps && AppInvariant(world, earlier, app, middle)
            && VisitAll(world, db, app, snapshot, front + [h], cursor, mark)
                 == StoreMark(Visit(world, earlier, app, snapshot, h, middle), app, mark)
  {
    hide AppInvariant, GoodWorld, VisitAll, Visit, StoreMark, RisesOver, StoresSucceed, ProgressOver;
    InvariantBasics(world, db, app, cursor);
    var middle := CursorOver(world, front, cursor);
    RisesAppend(world, front, [h], cursor);
    SucceedAppend(world, app, front, [h]);
    OneBlock(world, app, h, middle);
    VisitAllRefines(world, db, app, snapshot, front, cursor, mark);
    InvariantBasics(world, VisitAll(world, db, app, snapshot, front, cursor, mark), app, middle);
    VisitAllStep(world, db, app, snapshot, front, h, cursor, mark);
  }

  /** A visit that reads, and its mark. */
  lemma ReadingVisit(
    world: World, db: Db, app: Address, snapshot: AppRow, h: nat, cursor: nat, mark: Option<nat>)
    requires GoodWorld(world, app) && AppInvariant(world, db, app, cursor)
    requires cursor < world.l1FinalizedHeight(h)
    requires world.inputStoreFault(app, world.l1FinalizedHeight(h)).None?
    ensures var f := world.l1FinalizedHeight(h);
            CheckedUpTo(world, db, IngestBatch(world, db, app, cursor + 1, f),
                        StoreMark(Visit(world, db, app, snapshot, h, cursor), app, mark), app,
                        snapshot, f)
  {
    hide AppInvariant, Visit, IngestBatch, ClaimsStand, OutputsChecked, StoreMark, GoodWorld;
    InvariantBasics(world, db, app, cursor);
    var f := world.l1FinalizedHeight(h);
    VisitChecks(world, db, app, snapshot, h, cursor);
    VisitRefines(world, db, app, snapshot, h, cursor);
    var visited := Visit(world, db, app, snapshot, h, cursor);
    MarkKeepsChecks(visited, app, mark, f);
    CheckedStill(world, db, IngestBatch(world, db, app, cursor + 1, f), visited,
                 StoreMark(visited, app, mark), app, snapshot, f);
  }

  /** However many blocks are visited, claims and outputs are checked up to the last finalized height, if
      that is above the local cursor of the beginning: on the tables as the batch that reaches the height
      leaves them. */
  lemma {:induction false} VisitsCheck(
    world: World, db: Db, app: Address, snapshot: AppRow, hs: seq<nat>, cursor: nat,
    mark: Option<nat>, k: nat)
    requires GoodWorld(world, app) && AppInvariant(world, db, app, cursor)
    requires RisesOver(world, hs, cursor) && StoresSucceed(world, app, hs)
    requires ReadsLast(world, hs, cursor, k)
    ensures var end, from := CursorOver(world, hs, cursor), CursorOver(world, hs[..k], cursor);
            var before := VisitAll(world, db, app, snapshot, hs[..k], cursor, mark);
            CheckedUpTo(world, before, IngestBatch(world, before, app, from + 1, end),
                        VisitAll(world, db, app, snapshot, hs, cursor, mark), app, snapshot, end)
  {
    hide AppInvariant, IngestBatch, Visit, CheckedUpTo, StoreMark, RisesOver, StoresSucceed, GoodWorld,
      VisitAll, ReadsLast, CursorOver;
    InvariantBasics(world, db, app, cursor);
    KnownBlock(world, hs, cursor, k);
    var front, h := hs[..|hs| - 1], hs[|hs| - 1];
    assert hs == front + [h];
    LastVisit(world, db, app, snapshot, front, h, cursor, mark);
    var earlier := VisitAll(world, db, app, snapshot, front, cursor, mark);
    if k == |hs| - 1 {
      ReadingVisit(world, earlier, app, snapshot, h, CursorOver(world, front, cursor), mark);
    } else {
      ReadEarlier(world, hs, cursor, k);
      VisitsCheck(world, db, app, snapshot, front, cursor, mark, k);
      CheckedBefore(world, db, app, snapshot, hs, cursor, mark, k);
    }
  }

  /** If the last block does not read, what the check at block `k` did still stands after it. */
  lemma CheckedBefore(
    world: World, db: Db, app: Address, snapshot: AppRow, hs: seq<nat>, cursor: nat,
    mark: Option<nat>, k: nat)
    requires GoodWorld(world, app) && AppInvariant(world, db, app, cursor)
    requires RisesOver(world, hs, cursor) && StoresSucceed(world, app, hs)
    requires ReadsLast(world, hs, cursor, k) && k < |hs| - 1
    requires var end, from := CursorOver(world, hs, cursor), CursorOver(world, hs[..k], cursor);
             var before := VisitAll(world, db, app, snapshot, hs[..k], cursor, mark);
             CheckedUpTo(world, before, IngestBatch(world, before, app, from + 1, end),
                         VisitAll(world, db, app, snapshot, hs[..|hs| - 1], cursor, mark), app,
                         snapshot, end)
    ensures var end, from := CursorOver(world, hs, cursor), CursorOver(world, hs[..k], cursor);
            var before := VisitAll(world, db, app, snapshot, hs[..k], cursor, mark);
            CheckedUpTo(world, before, IngestBatch(world, before, app, from + 1, end),
                        VisitAll(world, db, app, snapshot, hs, cursor, mark), app, snapshot, end)
  {
    hide AppInvariant, IngestBatch, Visit, CheckedUpTo, StoreMark, RisesOver, StoresSucceed, GoodWorld,
      VisitAll, ReadsLast, ChecksKept;
    InvariantBasics(world, db, app, cursor);
    var front, h := hs[..|hs| - 1], hs[|hs| - 1];
    assert hs == front + [h];
    ReadEarlier(world, hs, cursor, k);
    LastVisit(world, db, app, snapshot, front, h, cursor, mark);
    var end := CursorOver(world, hs, cursor);
    var earlier := VisitAll(world, db, app, snapshot, front, cursor, mark);
    IdleVisit(world, earlier, app, snapshot, h, mark);
    var before := VisitAll(world, db, app, snapshot, hs[..k], cursor, mark);
    VisitAllKeepsApp(world, db, app, snapshot, hs[..k], cursor, mark);
    CheckedStill(world, before,
                 IngestBatch(world, before, app, CursorOver(world, hs[..k], cursor) + 1, end),
                 earlier, VisitAll(world, db, app, snapshot, hs, cursor, mark), app, snapshot, end);
  }

  /** Where the finalized height does not get above the local cursor, claims and outputs are left alone. */
  lemma {:induction false} IdleVisits(
    world: World, db: Db, app: Address, snapshot: AppRow, hs: seq<nat>, cursor: nat,
    mark: Option<nat>)
    requires GoodWorld(world, app) && AppInvariant(world, db, app, cursor)
    requires RisesOver(world, hs, cursor) && StoresSucceed(world, app, hs)
    requires CursorOver(world, hs, cursor) == cursor
    ensures ChecksKept(db, VisitAll(world, db, app, snapshot, hs, cursor, mark), app, cursor)
  {
    hide AppInvariant, Visit, StoreMark, RisesOver, StoresSucceed, GoodWorld, ChecksKept;
    InvariantBasics(world, db, app, cursor);
    if hs == [] {
      NothingDone(db, app, cursor);
    } else {
      hide VisitAll;
      var front, h := hs[..|hs| - 1], hs[|hs| - 1];
      assert hs == front + [h];
      LastVisit(world, db, app, snapshot, front, h, cursor, mark);
      IdleVisits(world, db, app, snapshot, front, cursor, mark);
      var earlier := VisitAll(world, db, app, snapshot, front, cursor, mark);
      IdleVisit(world, earlier, app, snapshot, h, mark);
      ChecksKeptChain(db, earlier, VisitAll(world, db, app, snapshot, hs, cursor, mark), app, cursor);
    }
  }

  // ---- a pass ----

  lemma MarkedChain(
    world: World, a: map<OutputKey, OutputRow>, b: map<OutputKey, OutputRow>,
    c: map<OutputKey, OutputRow>, app: Address, first: nat, middle: nat, to: nat)
    requires OnlyMarked(world, a, b, app, first, middle) && middle <= to
    requires OnlyMarked(world, b, c, app, first, to)
    ensures OnlyMarked(world, a, c, app, first, to)
  {
    hide HasHashOf;
    forall index, row | HasHashOf(world, app, first, middle, index, row)
      ensures HasHashOf(world, app, first, to, index, row)
    {
      LaterBlocksToo(world, app, first, middle, to, index, row);
    }
  }

  lemma LaterBlocksToo(
    world: World, app: Address, first: nat, middle: nat, to: nat, index: nat, row: OutputRow)
    requires HasHashOf(world, app, first, middle, index, row) && middle <= to
    ensures HasHashOf(world, app, first, to, index, row)
  {
    var e :| Executed(world, app, first, middle, e) && e.outputIndex == index
      && row.txHash == Some(e.txHash);
    assert Executed(world, app, first, to, e);
  }

  /** Over any visits an output gets nothing but the hash of an execution that a check has seen. */
  lemma {:induction false} VisitsOnlyMark(
    world: World, db: Db, app: Address, snapshot: AppRow, hs: seq<nat>, cursor: nat,
    mark: Option<nat>)
    requires GoodWorld(world, app) && AppInvariant(world, db, app, cursor)
    requires RisesOver(world, hs, cursor) && StoresSucceed(world, app, hs)
    ensures OnlyMarked(world, db.outputs, VisitAll(world, db, app, snapshot, hs, cursor, mark).outputs,
                       app, FirstOutputBlock(world, snapshot.lastOutputCheckBlock),
                       CursorOver(world, hs, cursor))
  {
    hide AppInvariant, Visit, RisesOver, StoresSucceed, GoodWorld, HasHashOf;
    InvariantBasics(world, db, app, cursor);
    if hs != [] {
      hide VisitAll, OnlyMarked;
      var first := FirstOutputBlock(world, snapshot.lastOutputCheckBlock);
      var front, h := hs[..|hs| - 1], hs[|hs| - 1];
      assert hs == front + [h];
      var middle, f := CursorOver(world, front, cursor), world.l1FinalizedHeight(h);
      LastVisit(world, db, app, snapshot, front, h, cursor, mark);
      VisitsOnlyMark(world, db, app, snapshot, front, cursor, mark);
      var earlier := VisitAll(world, db, app, snapshot, front, cursor, mark);
      VisitOnlyMarks(world, earlier, app, snapshot, h, middle);
      MarkedChain(world, db.outputs, earlier.outputs,
                  Visit(world, earlier, app, snapshot, h, middle).outputs, app, first, middle, f);
    }
  }

  lemma VisitOnlyMarks(world: World, db: Db, app: Address, snapshot: AppRow, h: nat, cursor: nat)
    requires GoodWorld(world, app) && AppInvariant(world, db, app, cursor)
    requires cursor <= world.l1FinalizedHeight(h)
    requires world.inputStoreFault(app, world.l1FinalizedHeight(h)).None?
    ensures OnlyMarked(world, db.outputs, Visit(world, db, app, snapshot, h, cursor).outputs, app,
                       FirstOutputBlock(world, snapshot.lastOutputCheckBlock),
                       world.l1FinalizedHeight(h))
  {
    hide AppInvariant, Visit, GoodWorld, HasHashOf, ClaimsStand, IngestBatch, AllStored;
    VisitChecks(world, db, app, snapshot, h, cursor);
  }

  /** What an output check up to `to` does, told from earlier tables in which less was marked. */
  lemma MarkedSince(
    world: World, start: Db, before: Db, after: Db, app: Address, lastOutputCheck: nat, middle: nat,
    to: nat)
    requires var first := FirstOutputBlock(world, lastOutputCheck);
             && OnlyMarked(world, start.outputs, before.outputs, app, first, middle) && middle <= to
             && first <= to && AllStored(world, start.outputs, app, first, to)
    requires OutputsChecked(world, before, after, app, lastOutputCheck, to)
    requires !world.outputUpdateFails(app, to)
    ensures OutputsMarked(world, start.outputs, after, app, FirstOutputBlock(world, lastOutputCheck), to)
  {
    hide HasHashOf;
    var first := FirstOutputBlock(world, lastOutputCheck);
    assert AllStored(world, before.outputs, app, first, to);
    hide AllStored;
    MarkedChain(world, start.outputs, before.outputs, after.outputs, app, first, middle, to);
  }

  /** The claims and outputs of a pass. Block `k` of those it visits is the one at which the finalized
      height gets to where the pass ends. Claims up to there are judged on the tables as that block's batch
      of inputs leaves them. And unless an output executed up to there is missing or different in the
      tables from the beginning, or the update fails, all of them are marked and the cursor is there. */
  lemma PassChecks(world: World, db: Db, app: Address, latest: nat, k: nat)
    requires app in db.apps && GoodWorld(world, app)
    requires AppInvariant(world, db, app, ResumesAt(world, db, app))
    requires RisesOver(world, PassVisits(world, latest, EspressoBlock(db, app)),
                       ResumesAt(world, db, app))
    requires StoresSucceed(world, app, PassVisits(world, latest, EspressoBlock(db, app)))
    requires ReadsLast(world, PassVisits(world, latest, EspressoBlock(db, app)),
                       ResumesAt(world, db, app), k)
    ensures var hs := PassVisits(world, latest, EspressoBlock(db, app));
            var from, snapshot := ResumesAt(world, db, app), db.apps[app];
            var end, middle := CursorOver(world, hs, from), CursorOver(world, hs[..k], from);
            var mark := if CatchesUp(latest, EspressoBlock(db, app)) then None else Some(latest);
            var before := VisitAll(world, db, app, snapshot, hs[..k], from, mark);
            var after := AppPass(world, db, app, snapshot, latest);
            var first := FirstOutputBlock(world, snapshot.lastOutputCheckBlock);
            && CheckedUpTo(world, before, IngestBatch(world, before, app, middle + 1, end), after, app,
                           snapshot, end)
            && (first <= end && AllStored(world, db.outputs, app, first, end)
                && !world.outputUpdateFails(app, end) ==>
                  OutputsMarked(world, db.outputs, after, app, first, end))
  {
    hide AppInvariant, VisitAll, RisesOver, StoresSucceed, GoodWorld, PassVisits, IngestBatch,
      CheckedUpTo, OutputsMarked, AllStored, CursorOver, StartCursor, FirstOutputBlock, ChecksKept,
      ReadsLast;
    var last, from, snapshot := EspressoBlock(db, app), ResumesAt(world, db, app), db.apps[app];
    InvariantBasics(world, db, app, from);
    var hs := PassVisits(world, latest, last);
    KnownBlock(world, hs, from, k);
    var end, middle := CursorOver(world, hs, from), CursorOver(world, hs[..k], from);
    var mark := if CatchesUp(latest, last) then None else Some(latest);
    var final := if CatchesUp(latest, last) then Some(latest) else None;
    VisitsCheck(world, db, app, snapshot, hs, from, mark, k);
    VisitAllKeepsApp(world, db, app, snapshot, hs[..k], from, mark);
    VisitAllKeepsApp(world, db, app, snapshot, hs, from, mark);
    var before := VisitAll(world, db, app, snapshot, hs[..k], from, mark);
    var visited := VisitAll(world, db, app, snapshot, hs, from, mark);
    var after := AppPass(world, db, app, snapshot, latest);
    assert after == StoreMark(visited, app, final);
    MarkKeepsChecks(visited, app, final, end);
    CheckedStill(world, before, IngestBatch(world, before, app, middle + 1, end), visited, after, app,
                 snapshot, end);
    MarkedOverVisits(world, db, after, app, snapshot, hs, from, mark, k);
  }

  lemma KnownBlock(world: World, hs: seq<nat>, cursor: nat, k: nat)
    requires ReadsLast(world, hs, cursor, k)
    ensures k < |hs|
    ensures CursorOver(world, hs, cursor) == world.l1FinalizedHeight(hs[|hs| - 1])
    ensures CursorOver(world, hs[..k], cursor) < CursorOver(world, hs, cursor)
  {
  }

  lemma MarkedOverVisits(
    world: World, db: Db, after: Db, app: Address, snapshot: AppRow, hs: seq<nat>, cursor: nat,
    mark: Option<nat>, k: nat)
    requires GoodWorld(world, app) && AppInvariant(world, db, app, cursor)
    requires RisesOver(world, hs, cursor) && StoresSucceed(world, app, hs)
    requires ReadsLast(world, hs, cursor, k)
    requires var end := CursorOver(world, hs, cursor);
             var before := VisitAll(world, db, app, snapshot, hs[..k], cursor, mark);
             CheckedUpTo(world, before,
                         IngestBatch(world, before, app, CursorOver(world, hs[..k], cursor) + 1, end),
                         after, app, snapshot, end)
    ensures var first := FirstOutputBlock(world, snapshot.lastOutputCheckBlock);
            var end := CursorOver(world, hs, cursor);
            first <= end && AllStored(world, db.outputs, app, first, end)
              && !world.outputUpdateFails(app, end) ==>
              OutputsMarked(world, db.outputs, after, app, first, end)
  {
    hide AppInvariant, VisitAll, RisesOver, StoresSucceed, GoodWorld, IngestBatch, ClaimsStand,
      OutputsChecked, OutputsMarked, OnlyMarked, AllStored, FirstOutputBlock;
    InvariantBasics(world, db, app, cursor);
    var first := FirstOutputBlock(world, snapshot.lastOutputCheckBlock);
    var end, middle := CursorOver(world, hs, cursor), CursorOver(world, hs[..k], cursor);
    var before := VisitAll(world, db, app, snapshot, hs[..k], cursor, mark);
    assert hs[..k] + hs[k..] == hs;
    RisesAppend(world, hs[..k], hs[k..], cursor);
    SucceedAppend(world, app, hs[..k], hs[k..]);
    VisitsOnlyMark(world, db, app, snapshot, hs[..k], cursor, mark);
    if first <= end && AllStored(world, db.outputs, app, first, end)
      && !world.outputUpdateFails(app, end) {
      MarkedSince(world, db, before, after, app, snapshot.lastOutputCheckBlock, middle, end);
    }
  }
}
