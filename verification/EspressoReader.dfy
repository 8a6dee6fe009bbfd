/** The Espresso reader (internal/espressoreader/espresso_reader.go): its methods, each proved to do to
    the tables what the step functions of `ReaderSteps` and `Coverage` say, and to look at the blocks
    and ask for the ranges they say. */
module EspressoReader {
  import opened Model
  import opened EpochMath
  import opened EpochCut
  import opened Tables
  import opened World
  import opened Ingest
  import opened Ledger
  import opened EspressoInput
  import opened Claims
  import opened ReaderSteps
  import opened CatchUp
  import opened Coverage
  import opened Independence
  import opened Turns
  import opened Windows
  import opened Database
  import opened ManyApps
  import Evm = EvmReader
  import Outputs
  import EvmAdvanceAbi
  import NamespaceTable

  class EspressoReader {
    const world: World
    const repository: Database
    const evmReader: Evm.EvmReader
    /** The Espresso blocks asked for, and for which application, and the header ranges, in order. */
    ghost var asked: seq<(Address, nat)>
    ghost var headerRanges: seq<Range>

    constructor (world: World, repository: Database, evmReader: Evm.EvmReader)
      ensures this.world == world && this.repository == repository && this.evmReader == evmReader
      ensures asked == [] && headerRanges == []
    {
      this.world, this.repository, this.evmReader := world, repository, evmReader;
      asked, headerRanges := [], [];
    }

    ghost predicate Wired() {
      evmReader.world == world && evmReader.repository == repository
    }

    /** What the reader relies on for an application. */
    ghost predicate Configured(app: Address) {
      Wired() && world.epochLength(app) >= 1 && ChainOrdered(world.inputsAdded, app)
    }

    lemma HasEpochLength(app: Address)
      requires Configured(app)
      ensures world.epochLength(app) >= 1
    {
    }

    ghost predicate Sound(app: Address)
      reads evmReader, repository
    {
      evmReader.CacheRight() && CanonicalWindows(world, repository.tables, app)
    }

    /** Base-layer inputs, claims and outputs up to the height the block names as finalized. */
    method ReadL1(app: Address, snapshot: AppRow, h: nat, lastProcessedL1Block: nat)
      returns (finalized: nat)
      requires Configured(app) && Sound(app)
      modifies evmReader, repository
      ensures Sound(app)
      ensures finalized == world.l1FinalizedHeight(h)
      ensures repository.tables
           == ReaderSteps.ReadL1(world, old(repository.tables), app, snapshot, h, lastProcessedL1Block)
      ensures evmReader.ranges
           == old(evmReader.ranges) + NotedFor(app, RangeUpTo(lastProcessedL1Block, finalized))
    {
      hide IngestAll, IngestBatch, CheckClaims, Outputs.CheckOutputs, NoDuplicates;
      finalized := world.l1FinalizedHeight(h);
      ReadL1KeepsWindows(world, repository.tables, app, snapshot, h, lastProcessedL1Block);
      if finalized > lastProcessedL1Block {
        var apps := [app];
        OneAppOrder(world, repository.tables, app, lastProcessedL1Block + 1, finalized);
        assert Evm.Asking(apps, lastProcessedL1Block + 1, finalized)
            == NotedFor(app, RangeUpTo(lastProcessedL1Block, finalized));
        var order := evmReader.ReadAndStoreInputs(lastProcessedL1Block + 1, finalized, apps);
        evmReader.CheckForClaimStatus(app, snapshot.lastClaimCheckBlock, finalized);
        evmReader.CheckForOutputExecution(app, snapshot.lastOutputCheckBlock, finalized);
      }
    }

    /** The transactions of a block, one after the other. */
    method ReadEspresso(app: Address, h: nat, finalized: nat, timestamp: nat)
      requires Wired() && evmReader.CacheRight() && world.epochLength(app) >= 1
      requires finalized == world.l1FinalizedHeight(h) && timestamp == world.l1FinalizedTimestamp(h)
      modifies evmReader`epochLengthCache, repository
      ensures evmReader.CacheRight()
      ensures repository.tables == DeliverBlock(world, old(repository.tables), app, h)
    {
      var transactions := world.transactions(h);
      for i := 0 to |transactions|
        invariant evmReader.CacheRight()
        invariant repository.tables == DeliverUpTo(world, old(repository.tables), app, h, i)
      {
        ReadTransaction(app, h, i, finalized, timestamp);
      }
    }

    /** One transaction: check it, build its input, store it, then move nonce and counter. */
    method ReadTransaction(app: Address, h: nat, i: nat, finalized: nat, timestamp: nat)
      requires evmReader.world == world && evmReader.CacheRight() && world.epochLength(app) >= 1
      requires i < |world.transactions(h)|
      requires finalized == world.l1FinalizedHeight(h) && timestamp == world.l1FinalizedTimestamp(h)
      modifies evmReader`epochLengthCache, repository
      ensures evmReader.CacheRight()
      ensures repository.tables == DeliverTx(world, old(repository.tables), app, h, i)
    {
      hide Admissible, SetNonce, SetCounter, Nonce, Counter, StoreEntries, EspressoEntries, DeliverTx,
        EspressoInputOf, EspressoEpoch, Survives, PayloadBytes;
      ghost var before := repository.tables;
      var input := BuildInput(app, h, i, finalized, timestamp);
      if input == None {
        NotAdmitted(world, before, app, h, i);
        return;
      }
      EntryOfInput(world, before, app, h, i);
      evmReader.AddAppEpochLengthIntoCache(app);
      var stored := StoreEspressoInput(app, input.value, world.espressoStoreFault(h, i));
      DeliveredOrNot(world, before, repository.tables, app, h, i, stored);
      if !stored {
        return;
      }
      AdvanceNonceAndIndex(world.transactions(h)[i].sender, app);
    }

    method AdvanceNonceAndIndex(sender: Address, app: Address)
      modifies repository
      ensures var before := old(repository.tables);
              repository.tables
                == SetCounter(SetNonce(before, sender, app, Nonce(before, sender, app) + 1), app,
                              Counter(before, app) + 1)
    {
      repository.UpdateEspressoNonce(sender, app);
      repository.UpdateInputIndex(app);
    }

    /** The input of a transaction, if its signature, application, nonce and payload are right. */
    method BuildInput(app: Address, h: nat, i: nat, finalized: nat, timestamp: nat)
      returns (input: Option<Input>)
      requires i < |world.transactions(h)|
      requires finalized == world.l1FinalizedHeight(h) && timestamp == world.l1FinalizedTimestamp(h)
      ensures var tx := world.transactions(h)[i];
              && (input.Some? <==> Admissible(world, app, repository.tables.nonces, h, i))
              && (input.Some? ==> input.value == EspressoInputOf(
                    world, h, app, tx, Counter(repository.tables, app),
                    PayloadBytes(tx.payload).value))
    {
      var tx := world.transactions(h)[i];
      if tx.Malformed? {
        return None;
      }
      if tx.app != app {
        return None;
      }
      var nonceInDb := repository.GetEspressoNonce(tx.sender, tx.app);
      if tx.nonce != nonceInDb {
        return None;
      }
      var payload := tx.payload;
      if HEX_PREFIX <= payload {
        match DecodeHex(payload[2..]) {
          case None => return None;
          case Some(bytes) => payload := bytes;
        }
      }
      var index := repository.GetInputIndex(tx.app);
      var raw := EvmAdvanceAbi.Pack(EvmAdvanceAbi.EvmAdvance(
        EvmAdvanceAbi.Int64Word(world.chainId), tx.app, tx.sender, finalized, timestamp,
        world.prevRandao(finalized), index, payload));
      input := Some(Input(app, index, raw, finalized, FromEspresso(tx.signatureHash)));
    }

    /** Store one input in the epoch the source picks for it. */
    method StoreEspressoInput(app: Address, input: Input, fault: Option<nat>) returns (ok: bool)
      requires app in evmReader.epochLengthCache
      requires evmReader.epochLengthCache[app] == world.epochLength(app) >= 1
      modifies repository
      ensures var before := old(repository.tables);
              var epoch := EspressoEpoch(before, app, world.epochLength(app), input.block);
              var after := StoreEntries(before, [Entry(epoch, [input])], input.block, app);
              && (ok <==> after.Some? && Survives(fault, ESPRESSO_STORE_STATEMENTS))
              && repository.tables == if ok then after.value else before
    {
      hide StoreEntries, EntriesStmts, Listed, Enumerates, NewEpoch, Survives;
      var epochLength := evmReader.epochLengthCache[app];
      var currentEpoch := repository.GetEpoch(epochLength, app);
      if currentEpoch == null {
        currentEpoch := new Epoch(
          NewEpoch(app, epochLength, CalculateEpochIndex(epochLength, input.block)), None);
      }
      var epochInputs := map[currentEpoch := [input]];
      ghost var entry := Entry(currentEpoch.Data(), [input]);
      ghost var contents := Contents(epochInputs);
      ghost var order;
      ok, order := repository.StoreEpochAndInputsTransaction(epochInputs, input.block, app, fault);
      OneEntry(order, contents, currentEpoch, entry);
    }

    /** The base layer first, then the block's transactions. */
    method VisitBlock(app: Address, snapshot: AppRow, h: nat, lastProcessedL1Block: nat)
      returns (finalized: nat)
      requires Configured(app) && Sound(app)
      modifies evmReader, repository
      ensures Sound(app)
      ensures finalized == world.l1FinalizedHeight(h)
      ensures repository.tables
           == Visit(world, old(repository.tables), app, snapshot, h, lastProcessedL1Block)
      ensures evmReader.ranges
           == old(evmReader.ranges) + NotedFor(app, RangeUpTo(lastProcessedL1Block, finalized))
    {
      finalized := ReadL1(app, snapshot, h, lastProcessedL1Block);
      DeliverUpToKeepsWindows(world, repository.tables, app, h, |world.transactions(h)|);
      ReadEspresso(app, h, finalized, world.l1FinalizedTimestamp(h));
    }

    ghost function Now(): Journal
      reads this, evmReader, repository
    {
      Journal(repository.tables, evmReader.ranges, asked)
    }

    /** Visit a block as the in-sync loop does, setting the Espresso cursor to the latest height. */
    method VisitAndMark(
      app: Address, snapshot: AppRow, h: nat, lastProcessedL1Block: nat, latestBlockHeight: nat,
      ghost start: Journal, ghost hs: seq<nat>, ghost from: nat)
      returns (finalized: nat)
      requires Configured(app) && Sound(app)
      requires Visited(world, start, Now(), app, snapshot, hs, hs, from, lastProcessedL1Block,
                       Some(latestBlockHeight))
      modifies this`asked, evmReader, repository
      ensures Sound(app)
      ensures Visited(world, start, Now(), app, snapshot, hs + [h], hs + [h], from, finalized,
                      Some(latestBlockHeight))
    {
      hide Visited, Visit, NotedFor;
      AskedMore(world, start, Now(), app, snapshot, hs, hs, from, lastProcessedL1Block,
                Some(latestBlockHeight), [h]);
      asked := asked + NotedFor(app, [h]);
      VisitedOneMore(world, start, Now(), app, snapshot, hs + [h], hs, from, lastProcessedL1Block,
                     Some(latestBlockHeight), h);
      finalized := VisitBlock(app, snapshot, h, lastProcessedL1Block);
      repository.UpdateLastProcessedEspressoBlock(app, latestBlockHeight);
    }

    /** Every block in turn. */
    method ProcessInSync(
      app: Address, snapshot: AppRow, lastProcessedEspressoBlock: nat, latestBlockHeight: nat,
      lastProcessedL1Block: nat)
      returns (ghost l1: nat)
      requires Configured(app) && Sound(app) && latestBlockHeight + 1 < TWO_TO_64
      requires lastProcessedEspressoBlock <= latestBlockHeight
      modifies this`asked, evmReader, repository
      ensures Sound(app)
      ensures var hs := Blocks(lastProcessedEspressoBlock + 1, latestBlockHeight + 1);
              Visited(world, old(Now()), Now(), app, snapshot, hs, hs, lastProcessedL1Block, l1,
                      Some(latestBlockHeight))
    {
      hide Configured, Sound, CanonicalWindows, ChainOrdered, Visited, VisitAll,
        L1Ranges, Add64, Blocks;
      HasEpochLength(app);
      var currentBlockHeight := Add64(lastProcessedEspressoBlock, 1);
      var l1Block := lastProcessedL1Block;
      ghost var first, hs: seq<nat> := currentBlockHeight, [];
      BlocksNext(first, first);
      VisitedNone(world, Now(), app, snapshot, l1Block, Some(latestBlockHeight));
      while currentBlockHeight <= latestBlockHeight
        invariant Sound(app) && first <= currentBlockHeight <= latestBlockHeight + 1
        invariant hs == Blocks(first, currentBlockHeight)
        invariant Visited(world, old(Now()), Now(), app, snapshot, hs, hs, lastProcessedL1Block,
                          l1Block, Some(latestBlockHeight))
      {
        BlocksNext(first, currentBlockHeight);
        l1Block := VisitAndMark(app, snapshot, currentBlockHeight, l1Block, latestBlockHeight,
                                old(Now()), hs, lastProcessedL1Block);
        hs := hs + [currentBlockHeight];
        currentBlockHeight := Add64(currentBlockHeight, 1);
      }
      l1 := l1Block;
    }

    /** Visit a block if its namespace table has the namespace. */
    method VisitIfNamespace(
      app: Address, snapshot: AppRow, h: nat, table: Bytes, l1: nat,
      ghost start: Journal, ghost blocks: seq<nat>, ghost hs: seq<nat>, ghost from: nat)
      returns (l1After: nat)
      requires Configured(app) && Sound(app) && NamespaceTable.Readable(table)
      requires Visited(world, start, Now(), app, snapshot, blocks, hs, from, l1, None)
      modifies evmReader, repository
      ensures Sound(app)
      ensures Visited(world, start, Now(), app, snapshot, blocks,
                      hs + (if TableHas(world, table) then [h] else []), from, l1After, None)
    {
      hide Visited, Configured, Sound, Visit, StoreMark;
      HasEpochLength(app);
      var contained := ContainsNamespace(table);
      if contained {
        VisitedOneMore(world, start, Now(), app, snapshot, blocks, hs, from, l1, None, h);
        NoMark(Visit(world, repository.tables, app, snapshot, h, l1), app);
        l1After := VisitBlock(app, snapshot, h, l1);
      } else {
        assert hs + [] == hs;
        l1After := l1;
      }
    }

    method ContainsNamespace(table: Bytes) returns (contained: bool)
      requires NamespaceTable.Readable(table)
      ensures contained == TableHas(world, table)
    {
      var ns := NamespaceTable.ExtractNS(table);
      contained := world.namespace % NamespaceTable.TWO_TO_32 in ns;
    }

    /** The namespace tables in the answer for a range of headers, if it can be unmarshalled. */
    method GetNSTableByRange(from: nat, until: nat) returns (tables: Option<seq<Bytes>>)
      modifies this`headerRanges
      ensures headerRanges == old(headerRanges) + [(from, until)]
      ensures tables == world.headerAnswer(from, until)
    {
      headerRanges := headerRanges + [(from, until)];
      tables := world.headerAnswer(from, until);
    }

    /** One batch of bootstrapping. */
    method BootstrapBatch(
      app: Address, snapshot: AppRow, batchStartingBlock: nat, batchEndingBlock: nat, l1: nat,
      ghost start: Journal, ghost blocks: seq<nat>, ghost hs: seq<nat>, ghost from: nat)
      returns (l1After: nat)
      requires Configured(app) && Sound(app) && AnswersReadable(world)
      requires Visited(world, start, Now(), app, snapshot, blocks, hs, from, l1, None)
      modifies this, evmReader, repository
      ensures Sound(app)
      ensures headerRanges == old(headerRanges) + [(batchStartingBlock, batchEndingBlock)]
      ensures Visited(world, start, Now(), app, snapshot,
                      blocks + Blocks(batchStartingBlock, batchEndingBlock),
                      hs + BatchVisits(world, (batchStartingBlock, batchEndingBlock)), from, l1After,
                      None)
    {
      hide Configured, Sound, Visited, Blocks, TableHas, NotedFor;
      ghost var more := Blocks(batchStartingBlock, batchEndingBlock);
      AskedMore(world, start, Now(), app, snapshot, blocks, hs, from, l1, None, more);
      var answer := GetNSTableByRange(batchStartingBlock, batchEndingBlock);
      asked := asked + NotedFor(app, more);
      l1After := l1;
      assert hs + [] == hs;
      if answer == None {
        return;
      }
      var nsTables := answer.value;
      assert nsTables[..0] == [] && nsTables[..|nsTables|] == nsTables;
      for index := 0 to |nsTables|
        invariant Sound(app)
        invariant headerRanges == old(headerRanges) + [(batchStartingBlock, batchEndingBlock)]
        invariant Visited(world, start, Now(), app, snapshot, blocks + more,
                          hs + Found(world, nsTables[..index], batchStartingBlock), from, l1After, None)
      {
        FoundNext(world, nsTables, index, batchStartingBlock, hs);
        l1After := VisitIfNamespace(
          app, snapshot, batchStartingBlock + index, nsTables[index], l1After, start, blocks + more,
          hs + Found(world, nsTables[..index], batchStartingBlock), from);
      }
    }

    /** Catch up in batches of headers, visiting only blocks found to have the namespace. */
    method Bootstrap(
      app: Address, snapshot: AppRow, lastProcessedEspressoBlock: nat, latestBlockHeight: nat, l1: nat)
      returns (ghost l1After: nat)
      requires Configured(app) && Sound(app) && AnswersReadable(world)
      requires lastProcessedEspressoBlock + 1 < TWO_TO_64
      requires latestBlockHeight + BATCH_LIMIT < TWO_TO_64
      modifies this, evmReader, repository
      ensures Sound(app)
      ensures headerRanges
           == old(headerRanges) + Batches(lastProcessedEspressoBlock + 1, latestBlockHeight)
      ensures var first := lastProcessedEspressoBlock + 1;
              Visited(world, old(Now()), Now(), app, snapshot, Blocks(first, latestBlockHeight + 1),
                      BootstrapVisits(world, first, latestBlockHeight), l1, l1After, None)
    {
      hide Configured, Sound, CanonicalWindows, ChainOrdered, Visited, VisitAll, L1Ranges, Add64, Blocks,
        BatchVisits, AnswersReadable;
      HasEpochLength(app);
      var batchStartingBlock := Add64(lastProcessedEspressoBlock, 1);
      var l1FinalizedHeight := l1;
      ghost var first := batchStartingBlock;
      ghost var hs: seq<nat> := [];
      VisitedNone(world, Now(), app, snapshot, l1, None);
      NothingBefore(world, first, Min(first, latestBlockHeight + 1));
      NothingBefore(world, first, latestBlockHeight + 1);
      while latestBlockHeight >= batchStartingBlock
        invariant Sound(app) && first <= batchStartingBlock
        invariant headerRanges + Batches(batchStartingBlock, latestBlockHeight)
               == old(headerRanges) + Batches(first, latestBlockHeight)
        invariant hs + BootstrapVisits(world, batchStartingBlock, latestBlockHeight)
               == BootstrapVisits(world, first, latestBlockHeight)
        invariant Visited(world, old(Now()), Now(), app, snapshot,
                          Blocks(first, Min(batchStartingBlock, latestBlockHeight + 1)), hs, l1,
                          l1FinalizedHeight, None)
        decreases latestBlockHeight + 1 - batchStartingBlock
      {
        var batchEndingBlock :=
          if Add64(batchStartingBlock, BATCH_LIMIT) > Add64(latestBlockHeight, 1)
          then Add64(latestBlockHeight, 1) else Add64(batchStartingBlock, BATCH_LIMIT);
        BlocksJoin(first, batchStartingBlock, batchEndingBlock);
        l1FinalizedHeight := BootstrapBatch(
          app, snapshot, batchStartingBlock, batchEndingBlock, l1FinalizedHeight, old(Now()),
          Blocks(first, batchStartingBlock), hs, l1);
        hs := hs + BatchVisits(world, (batchStartingBlock, batchEndingBlock));
        batchStartingBlock := Add64(batchStartingBlock, BATCH_LIMIT);
      }
      assert hs + [] == hs;
      l1After := l1FinalizedHeight;
    }

    /** One application's turn in an iteration of Run. */
    method ProcessApp(app: Address, snapshot: AppRow, latestBlockHeight: nat)
      requires Configured(app) && Sound(app) && AnswersReadable(world)
      requires latestBlockHeight + BATCH_LIMIT < TWO_TO_64
      requires EspressoBlock(repository.tables, app) + BATCH_LIMIT < TWO_TO_64
      requires world.startingBlock < TWO_TO_64
      modifies this, evmReader, repository
      ensures Sound(app)
      ensures repository.tables
           == AppPass(world, old(repository.tables), app, snapshot, latestBlockHeight)
      ensures var last := EspressoBlock(old(repository.tables), app);
              && asked == old(asked) + NotedFor(app, PassBlocks(world, latestBlockHeight, last))
              && evmReader.ranges == old(evmReader.ranges)
                   + NotedFor(app, L1Ranges(world, PassVisits(world, latestBlockHeight, last),
                                       StartCursor(world, snapshot)))
    {
      hide Configured, ChainOrdered, VisitAll, L1Ranges, Blocks, BootstrapVisits, AnswersReadable, NotedFor;
      var lastProcessedEspressoBlock := repository.GetLastProcessedEspressoBlock(app);
      var lastProcessedL1Block := snapshot.lastProcessedBlock;
      if lastProcessedL1Block < world.inputBoxDeploymentBlock {
        lastProcessedL1Block := world.inputBoxDeploymentBlock - 1;
      }
      if Sub64(latestBlockHeight, lastProcessedEspressoBlock) > BATCH_LIMIT {
        if lastProcessedEspressoBlock == 0 {
          if world.startingBlock != 0 {
            lastProcessedEspressoBlock := world.startingBlock - 1;
          } else {
            lastProcessedEspressoBlock := latestBlockHeight - 1;
          }
        }
        var _ := Bootstrap(app, snapshot, lastProcessedEspressoBlock, latestBlockHeight,
                           lastProcessedL1Block);
        repository.UpdateLastProcessedEspressoBlock(app, latestBlockHeight);
      } else {
        var _ := ProcessInSync(app, snapshot, lastProcessedEspressoBlock, latestBlockHeight,
                               lastProcessedL1Block);
      }
    }

    /** All applications are in order. */
    ghost predicate Ready()
      reads evmReader, repository
    {
      && Wired() && evmReader.CacheRight() && AnswersReadable(world)
      && world.startingBlock < TWO_TO_64 && AllReady(world, repository.tables)
    }

    /** One iteration: the rows of the running applications are read at its start, and then they have
        their turns, one after the other. */
    method RunOnce(iteration: Iteration, ghost start: Journal, ghost done: seq<Turn>)
      requires Ready() && Running(repository.tables, iteration) && Taken(world, start, Now(), done)
      modifies this, evmReader, repository
      ensures Ready() && old(repository.tables).apps.Keys <= repository.tables.apps.Keys
      ensures Taken(world, start, Now(), done + TurnsOf(iteration, |iteration.apps|))
    {
      hide AllReady, AppPass, Taken, PassBlocks, PassVisits, L1Ranges, NotedFor, TurnsOf, StartCursor,
        AnswersReadable, CanonicalWindows;
      var latest, apps := iteration.latest, iteration.apps;
      var before := repository.tables;
      var snapshots := seq(|apps|, i requires 0 <= i < |apps| => before.apps[apps[i]]);
      NoTurnOf(done, iteration);
      for j := 0 to |apps|
        invariant Ready() && before.apps.Keys <= repository.tables.apps.Keys
        invariant forall k | j <= k < |apps| ::
            apps[k] in repository.tables.apps && repository.tables.apps[apps[k]] == snapshots[k]
        invariant Taken(world, start, Now(), done + TurnsOf(iteration, j))
      {
        ghost var db := repository.tables;
        OneReady(world, db, apps[j]);
        NextTurnOf(done, iteration, j);
        TurnTaken(world, start, Now(), done + TurnsOf(iteration, j), Turn(apps[j], latest));
        ProcessApp(apps[j], snapshots[j], latest);
        OthersStay(world, db, apps[j], snapshots[j], latest);
      }
    }

    /** Run, over some iterations. */
    method Run(iterations: seq<Iteration>)
      requires Ready()
      requires forall k | 0 <= k < |iterations| :: Running(repository.tables, iterations[k])
      modifies this, evmReader, repository
      ensures Ready()
      ensures Taken(world, old(Now()), Now(), AllTurns(iterations))
    {
      hide Ready, Running, Taken, TurnsOf;
      ghost var first := repository.tables;
      NothingTaken(world, Now());
      assert iterations[..0] == [] && iterations[..|iterations|] == iterations;
      for i := 0 to |iterations|
        invariant Ready() && first.apps.Keys <= repository.tables.apps.Keys
        invariant Taken(world, old(Now()), Now(), AllTurns(iterations[..i]))
      {
        StillRunning(first, repository.tables, iterations[i]);
        RunOnce(iterations[i], old(Now()), AllTurns(iterations[..i]));
        assert iterations[..i + 1][..i] == iterations[..i];
      }
    }
  }

  // ---- several applications ----

  /** Every application has an epoch length, its events are in order, and its rows are. */
  ghost predicate AllReady(world: World, db: Db) {
    forall app | app in db.apps ::
      && world.epochLength(app) >= 1 && ChainOrdered(world.inputsAdded, app)
      && CanonicalWindows(world, db, app)
      && EspressoBlock(db, app) + BATCH_LIMIT < TWO_TO_64
  }

  lemma OneReady(world: World, db: Db, app: Address)
    requires AllReady(world, db)
    ensures app in db.apps ==>
              && world.epochLength(app) >= 1 && ChainOrdered(world.inputsAdded, app)
              && CanonicalWindows(world, db, app)
              && EspressoBlock(db, app) + BATCH_LIMIT < TWO_TO_64
  {
  }

  /** What a query for the running applications answers: registered ones, each once. */
  ghost predicate Running(db: Db, iteration: Iteration) {
    && NoDuplicates(iteration.apps) && iteration.latest + BATCH_LIMIT < TWO_TO_64
    && forall k | 0 <= k < |iteration.apps| :: iteration.apps[k] in db.apps
  }

  lemma StillRunning(before: Db, after: Db, iteration: Iteration)
    requires Running(before, iteration) && before.apps.Keys <= after.apps.Keys
    ensures Running(after, iteration)
  {
  }

  /** The tables are those after these turns, and what was asked for on the way has been noted. */
  ghost predicate Taken(world: World, start: Journal, now: Journal, turns: seq<Turn>) {
    && LengthsSet(world, turns)
    && now == Journal(TakeTurns(world, start.tables, turns),
                      start.ranges + TurnRanges(world, start.tables, turns),
                      start.asked + TurnBlocks(world, start.tables, turns))
  }

  lemma NothingTaken(world: World, j: Journal)
    ensures Taken(world, j, j, AllTurns([]))
  {
  }

  lemma NoTurnOf(done: seq<Turn>, iteration: Iteration)
    ensures done + TurnsOf(iteration, 0) == done
  {
  }

  lemma NextTurnOf(done: seq<Turn>, iteration: Iteration, j: nat)
    requires j < |iteration.apps|
    ensures done + TurnsOf(iteration, j + 1)
         == done + TurnsOf(iteration, j) + [Turn(iteration.apps[j], iteration.latest)]
  {
  }

  lemma TurnTaken(world: World, start: Journal, now: Journal, turns: seq<Turn>, t: Turn)
    requires Taken(world, start, now, turns)
    requires t.app in now.tables.apps && world.epochLength(t.app) >= 1
    ensures var row, last := now.tables.apps[t.app], EspressoBlock(now.tables, t.app);
            Taken(world, start,
                  Journal(AppPass(world, now.tables, t.app, row, t.latest),
                          now.ranges + NotedFor(t.app, L1Ranges(world, PassVisits(world, t.latest, last),
                                                           StartCursor(world, row))),
                          now.asked + NotedFor(t.app, PassBlocks(world, t.latest, last))),
                  turns + [t])
  {
    hide AppPass, PassBlocks, PassVisits, L1Ranges, NotedFor, TakeTurns, TurnBlocks, TurnRanges, StartCursor;
    OneMoreTurn(world, start.tables, turns, t);
  }

  /** A turn leaves the others ready, and their rows as they were. */
  lemma OthersStay(world: World, db: Db, app: Address, snapshot: AppRow, latest: nat)
    requires AllReady(world, db) && app in db.apps && world.epochLength(app) >= 1
    requires latest + BATCH_LIMIT < TWO_TO_64
    requires CanonicalWindows(world, AppPass(world, db, app, snapshot, latest), app)
    ensures var after := AppPass(world, db, app, snapshot, latest);
            && AllReady(world, after) && db.apps.Keys <= after.apps.Keys
            && (forall other | other in db.apps && other != app ::
                  after.apps[other] == db.apps[other])
  {
    hide AppPass, RowsAgree, NoncesAgree, EspressoBlock, CanonicalWindows, ChainOrdered;
    var after := AppPass(world, db, app, snapshot, latest);
    PassKeepsApp(world, db, app, snapshot, latest);
    PassStoresCursor(world, db, app, snapshot, latest);
    CursorStaysSmall(latest, EspressoBlock(db, app));
    OneReady(world, db, app);
    forall other: Address | other != app
      ensures AppAgrees(db.apps, after.apps, other)
      ensures EspressoBlock(after, other) == EspressoBlock(db, other)
      ensures CanonicalWindows(world, db, other) ==> CanonicalWindows(world, after, other)
    {
      PassApart(world, db, app, snapshot, latest, other);
      AgreedWindows(world, db, after, other);
    }
  }

  lemma AgreedWindows(world: World, before: Db, after: Db, app: Address)
    requires RowsAgree(before.epochs, after.epochs, app)
    ensures CanonicalWindows(world, before, app) ==> CanonicalWindows(world, after, app)
  {
    forall key: EpochKey | key in after.epochs && key.0 == app
      ensures key in before.epochs && after.epochs[key] == before.epochs[key]
    {
      OneRow(before.epochs, after.epochs, app, key.1);
    }
  }

  lemma CursorStaysSmall(latest: nat, last: nat)
    ensures PassCursor(latest, last) == latest || PassCursor(latest, last) == last
  {
  }

  /** No namespace table in an answer makes the reader panic. */
  ghost predicate AnswersReadable(world: World) {
    forall from: nat, until: nat, k: nat | Answered(world, from, until, k) ::
      NamespaceTable.Readable(world.headerAnswer(from, until).value[k])
  }

  predicate Answered(world: World, from: nat, until: nat, k: nat) {
    var answer := world.headerAnswer(from, until);
    answer.Some? && k < |answer.value|
  }

  /** One more table of an answer. */
  lemma FoundNext(world: World, tables: seq<Bytes>, i: nat, start: nat, hs: seq<nat>)
    requires i < |tables|
    ensures hs + Found(world, tables[..i], start)
            + (if TableHas(world, tables[i]) then [start + i] else [])
         == hs + Found(world, tables[..i + 1], start)
  {
    hide TableHas;
    assert tables[..i + 1][..i] == tables[..i];
  }

  lemma NoMark(db: Db, app: Address)
    ensures StoreMark(db, app, None) == db
  {
  }

  lemma NotAdmitted(world: World, db: Db, app: Address, h: nat, i: nat)
    requires world.epochLength(app) >= 1 && i < |world.transactions(h)|
    requires !Admissible(world, app, db.nonces, h, i)
    ensures DeliverTx(world, db, app, h, i) == db
  {
  }

  lemma EntryOfInput(world: World, db: Db, app: Address, h: nat, i: nat)
    requires world.epochLength(app) >= 1 && i < |world.transactions(h)|
    requires Admissible(world, app, db.nonces, h, i)
    ensures var tx := world.transactions(h)[i];
            tx.Signed? && PayloadBytes(tx.payload).Some?
    ensures var tx := world.transactions(h)[i];
            var input := EspressoInputOf(world, h, app, tx, Counter(db, app),
                                         PayloadBytes(tx.payload).value);
            && input.block == world.l1FinalizedHeight(h)
            && EspressoEntries(world, db, app, h, i)
                 == [Entry(EspressoEpoch(db, app, world.epochLength(app), input.block), [input])]
  {
  }

  /** What is left to do for a transaction after its input was stored, or not. */
  lemma DeliveredOrNot(
    world: World, before: Db, after: Db, app: Address, h: nat, i: nat, stored: bool)
    requires world.epochLength(app) >= 1 && i < |world.transactions(h)|
    requires Admissible(world, app, before.nonces, h, i)
    requires var r := StoreEntries(before, EspressoEntries(world, before, app, h, i),
                                   world.l1FinalizedHeight(h), app);
             && (stored <==>
                   r.Some? && Survives(world.espressoStoreFault(h, i), ESPRESSO_STORE_STATEMENTS))
             && after == if stored then r.value else before
    ensures world.transactions(h)[i].Signed?
    ensures var sender := world.transactions(h)[i].sender;
            DeliverTx(world, before, app, h, i) ==
              if stored then SetCounter(SetNonce(after, sender, app, Nonce(after, sender, app) + 1),
                                        app, Counter(after, app) + 1)
              else before
  {
    hide StoreEntries;
  }

  /** A map with one key stores one entry. */
  lemma OneEntry(order: seq<Epoch>, contents: map<Epoch, Entry>, e: Epoch, entry: Entry)
    requires Enumerates(order, contents) && contents == map[e := entry] && |entry.inputs| == 1
    ensures Listed(order, contents) == [entry]
    ensures |EntriesStmts([entry])| + 2 == ESPRESSO_STORE_STATEMENTS
  {
    assert e in order;
    forall k | 0 <= k < |order| ensures order[k] == e {
      assert order[k] in order;
    }
    RepeatsHaveDuplicates(order, e);
    assert [entry][..0] == [];
  }

  lemma RepeatsHaveDuplicates<K>(order: seq<K>, only: K)
    ensures |order| > 1 && (forall k | 0 <= k < |order| :: order[k] == only) ==>
              !NoDuplicates(order)
  {
    if |order| > 1 && order[0] == order[1] {
      assert !NoDuplicates(order);
    }
  }

  /** A one-element batch has one order. */
  lemma OneAppOrder(world: World, db: Db, app: Address, startBlock: nat, endBlock: nat)
    requires world.epochLength(app) >= 1
    ensures forall order | NoDuplicates(order) && (forall a :: a in order <==> a in [app]) ::
              LengthsKnown(world, order)
              && IngestAll(world, db, order, startBlock, endBlock)
                   == IngestBatch(world, db, app, startBlock, endBlock)
  {
    forall order | NoDuplicates(order) && (forall a :: a in order <==> a in [app])
      ensures LengthsKnown(world, order)
      ensures IngestAll(world, db, order, startBlock, endBlock)
           == IngestBatch(world, db, app, startBlock, endBlock)
    {
      assert app in [app];
      assert app in order;
      forall k | 0 <= k < |order| ensures order[k] == app {
        assert order[k] in order;
      }
      RepeatsHaveDuplicates(order, app);
      assert order == [app];
      assert order[..0] == [];
    }
  }

  lemma ReadL1KeepsWindows(
    world: World, db: Db, app: Address, snapshot: AppRow, h: nat, cursor: nat)
    requires world.epochLength(app) >= 1 && ChainOrdered(world.inputsAdded, app)
    requires CanonicalWindows(world, db, app)
    ensures CanonicalWindows(world, ReaderSteps.ReadL1(world, db, app, snapshot, h, cursor), app)
  {
    hide CheckClaims, IngestBatch, CanonicalWindows;
    var f := world.l1FinalizedHeight(h);
    if f > cursor {
      IngestKeepsWindows(world, db, app, cursor + 1, f);
      var ingested := IngestBatch(world, db, app, cursor + 1, f);
      ClaimsAreQuiet(world, ingested, app, snapshot.lastClaimCheckBlock, f);
      var claimed := CheckClaims(world, ingested, app, snapshot.lastClaimCheckBlock, f);
      QuietWindows(world, ingested, claimed, app);
      SameEpochWindows(world, claimed,
        Outputs.CheckOutputs(world, claimed, app, snapshot.lastOutputCheckBlock, f), app);
    }
  }

  lemma IngestKeepsWindows(world: World, db: Db, app: Address, startBlock: nat, endBlock: nat)
    requires world.epochLength(app) >= 1 && ChainOrdered(world.inputsAdded, app)
    requires startBlock <= endBlock && CanonicalWindows(world, db, app)
    ensures CanonicalWindows(world, IngestBatch(world, db, app, startBlock, endBlock), app)
  {
    hide IngestBatch, BatchEntries;
    if CurrentEpochIsOpen(world, db, app, startBlock) {
      Evm.BatchIsSegmented(world, db, app, startBlock, endBlock);
    }
    BatchKeepsWindows(world, db, app, startBlock, endBlock);
  }

  lemma QuietWindows(world: World, before: Db, after: Db, app: Address)
    requires Quiet(before, after, app) && CanonicalWindows(world, before, app)
    ensures CanonicalWindows(world, after, app)
  {
  }

  lemma SameEpochWindows(world: World, before: Db, after: Db, app: Address)
    requires after.epochs == before.epochs && CanonicalWindows(world, before, app)
    ensures CanonicalWindows(world, after, app)
  {
  }
}
