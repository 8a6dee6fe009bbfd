/** The base-layer reader: inputs, claims and outputs (internal/evmreader).

    The epochs being filled are heap objects, shared between the loop's `currentEpoch` and the keys of
    the map that is stored at the end, and closed in place. `Represents` ties them to the state of
    `EpochCut`. */
module EvmReader {
  import opened Model
  import opened EpochMath
  import opened EpochCut
  import opened Tables
  import opened World
  import opened Ingest
  import opened Database
  import opened Ledger
  import opened ManyApps
  import opened Claims
  import opened Outputs
  import Sorting
  import EvmAdvanceAbi

  /** The loop variables `current` and `m` stand for the cut state `c`, the keys of the map having been
      added in this order. */
  ghost predicate Represents(
    c: CutState, current: Epoch?, m: map<Epoch, seq<Input>>, order: seq<Epoch>)
    reads m.Keys, order, current
  {
    && (current == null <==> c.current == None)
    && (current != null ==> c.current == Some(current.Data()))
    && NoDuplicates(order)
    && (forall e | e in order :: e in m)
    && (forall e | e in m :: e in order)
    && |order| == |c.sealed| + (if c.listed then 1 else 0)
    && (forall k | 0 <= k < |c.sealed| :: c.sealed[k] == Entry(order[k].Data(), m[order[k]]))
    && (if c.listed then
          current != null && order[|c.sealed|] == current && m[current] == c.filling
        else
          (current != null ==> current !in m) && c.filling == [])
  }

  lemma RepresentsNothing(data: Option<EpochData>, stored: Epoch?)
    requires data == DataOf(stored)
    ensures Represents(CutState([], data, [], false), stored, map[], [])
  {
  }

  lemma RepresentedEntries(
    c: CutState, current: Epoch?, m: map<Epoch, seq<Input>>, order: seq<Epoch>)
    requires Represents(c, current, m, order)
    ensures Enumerates(order, Contents(m))
    ensures Listed(order, Contents(m)) == Entries(c)
  {
  }

  /** One query for several applications. */
  function Asking(apps: seq<Address>, startBlock: nat, endBlock: nat): (r: seq<(Address, (nat, nat))>)
    ensures |r| == |apps|
  {
    seq(|apps|, i requires 0 <= i < |apps| => (apps[i], (startBlock, endBlock)))
  }

  class EvmReader {
    const world: World
    const repository: Database
    var epochLengthCache: map<Address, nat>
    /** The block ranges the InputBox has been asked for, and for which application. */
    ghost var ranges: seq<(Address, (nat, nat))>

    constructor (world: World, repository: Database)
      ensures this.world == world && this.repository == repository
      ensures epochLengthCache == map[] && ranges == []
    {
      this.world, this.repository := world, repository;
      epochLengthCache, ranges := map[], [];
    }

    /** Put an input where it belongs: into the current epoch, or into a new one once the current one
        has been closed. */
    method Place(
      app: Address, epochLength: nat, current: Epoch?, m: map<Epoch, seq<Input>>, input: Input,
      ghost c: CutState, ghost order: seq<Epoch>)
      returns (currentEpoch: Epoch, epochInputs: map<Epoch, seq<Input>>, ghost newOrder: seq<Epoch>)
      requires epochLength >= 1 && Represents(c, current, m, order)
      modifies if current == null then {} else {current}
      ensures Represents(CutStep(app, epochLength, c, input), currentEpoch, epochInputs, newOrder)
      ensures currentEpoch == current || fresh(currentEpoch)
      ensures forall e | e in epochInputs :: e in m || e == currentEpoch
    {
      var inputEpochIndex := CalculateEpochIndex(epochLength, input.block);
      epochInputs, newOrder := m, order;
      var kept := current;
      if kept != null && kept.index != inputEpochIndex {
        kept.status := Closed;
        kept := null;
      }
      assert Represents(
          if c.current.Some? && c.current.value.index != inputEpochIndex then LeaveEpoch(c) else c,
          kept, epochInputs, newOrder);
      if kept == null {
        currentEpoch := new Epoch(NewEpoch(app, epochLength, inputEpochIndex), None);
      } else {
        currentEpoch := kept;
      }
      if currentEpoch !in epochInputs {
        epochInputs := epochInputs[currentEpoch := []];
        newOrder := newOrder + [currentEpoch];
      }
      epochInputs := epochInputs[currentEpoch := epochInputs[currentEpoch] + [input]];
    }

    /** All inputs have been placed: close the last epoch if its last block has been reached. */
    method CloseLast(
      current: Epoch?, m: map<Epoch, seq<Input>>, endBlock: nat,
      ghost c: CutState, ghost order: seq<Epoch>)
      returns (epochInputs: map<Epoch, seq<Input>>, ghost newOrder: seq<Epoch>)
      requires Represents(c, current, m, order)
      modifies if current == null then {} else {current}
      ensures Enumerates(newOrder, Contents(epochInputs))
      ensures Listed(newOrder, Contents(epochInputs)) == Entries(FinishCut(c, endBlock))
      ensures forall e | e in epochInputs :: e in m || e == current
    {
      epochInputs, newOrder := m, order;
      if current != null && endBlock >= current.lastBlock {
        current.status := Closed;
        if current !in epochInputs {
          epochInputs := epochInputs[current := []];
          newOrder := newOrder + [current];
        }
      }
      RepresentedEntries(FinishCut(c, endBlock), current, epochInputs, newOrder);
    }

    /** The node's answer, in no particular order. */
    method RetrieveInputs(apps: set<Address>, startBlock: nat, endBlock: nat)
      returns (events: seq<InputAdded>)
      ensures multiset(events) == multiset(Matching(world.inputsAdded, apps, startBlock, endBlock))
    {
      events := Matching(world.inputsAdded, apps, startBlock, endBlock);
    }

    /** The inputs of each application in the order of their InputBox indices. */
    method ReadInputsFromBlockchain(apps: seq<Address>, startBlock: nat, endBlock: nat)
      returns (appInputs: map<Address, seq<Input>>)
      modifies this`ranges
      ensures ranges == old(ranges) + Asking(apps, startBlock, endBlock)
      ensures appInputs.Keys == Members(apps)
      ensures forall app | app in apps && ChainOrdered(world.inputsAdded, app) ::
                appInputs[app] == InputsIn(world.inputsAdded, app, startBlock, endBlock)
    {
      hide Matching, InputsIn, ChainOrdered, ArrivedSorted, SortedHere;
      appInputs := map app | app in apps :: [];
      ranges := ranges + Asking(apps, startBlock, endBlock);
      var events := RetrieveInputs(Members(apps), startBlock, endBlock);
      AnswerMembers(world, Members(apps), startBlock, endBlock, events);
      NothingArrived(appInputs, startBlock, endBlock);
      assert events[..0] == [];
      for i := 0 to |events|
        invariant ranges == old(ranges) + Asking(apps, startBlock, endBlock)
        invariant appInputs.Keys == Members(apps)
        invariant ArrivedSorted(appInputs, events[..i], startBlock, endBlock)
      {
        var app := events[i].app;
        var input := InputOf(events[i]);
        SortedSoFar(appInputs, events[..i], startBlock, endBlock, app);
        var sorted := Sorting.InsertSorted(IndexKey, appInputs[app], input);
        OneMoreArrival(appInputs, events, i, startBlock, endBlock, sorted);
        appInputs := appInputs[app := sorted];
      }
      assert events[..|events|] == events;
      AllArrived(world, apps, appInputs, startBlock, endBlock, events);
    }

    /** Give the input the shared counter as its index, and move the counter. */
    method Renumber(input: Input) returns (r: Input)
      modifies repository
      ensures r == Renumbered(input, Counter(old(repository.tables), input.app),
                              world.shouldModifyIndex)
      ensures repository.tables == AdvanceCounter(old(repository.tables), input.app, 1)
    {
      r := input;
      var combinedIndex := repository.GetInputIndex(input.app);
      if combinedIndex != input.index && world.shouldModifyIndex {
        r := r.(index := combinedIndex);
        match EvmAdvanceAbi.ModifyIndexInRaw(input.raw, combinedIndex) {
          case Some(raw) => r := r.(raw := raw);
          case None =>
        }
      }
      repository.UpdateInputIndex(input.app);
    }

    /** Renumber an input and place it. */
    method PlaceNext(
      app: Address, epochLength: nat, current: Epoch?, m: map<Epoch, seq<Input>>, input: Input,
      ghost c: CutState, ghost order: seq<Epoch>)
      returns (currentEpoch: Epoch, epochInputs: map<Epoch, seq<Input>>, ghost newOrder: seq<Epoch>)
      requires epochLength >= 1 && Represents(c, current, m, order) && input.app == app
      modifies repository
      modifies if current == null then {} else {current}
      ensures repository.tables == AdvanceCounter(old(repository.tables), app, 1)
      ensures Represents(
                CutStep(app, epochLength, c,
                        Renumbered(input, Counter(old(repository.tables), app),
                                   world.shouldModifyIndex)),
                currentEpoch, epochInputs, newOrder)
      ensures currentEpoch == current || fresh(currentEpoch)
      ensures forall e | e in epochInputs :: e in m || e == currentEpoch
    {
      hide Renumbered, AdvanceCounter, Counter, CutStep, Represents;
      var renumbered := Renumber(input);
      currentEpoch, epochInputs, newOrder :=
        Place(app, epochLength, current, m, renumbered, c, order);
    }

    /** Renumber and place all inputs, starting with the epoch read from the store. */
    method PlaceAll(app: Address, epochLength: nat, stored: Epoch?, inputs: seq<Input>)
      returns (
        currentEpoch: Epoch?, epochInputs: map<Epoch, seq<Input>>, ghost order: seq<Epoch>)
      requires epochLength >= 1
      requires forall i | 0 <= i < |inputs| :: inputs[i].app == app
      modifies repository
      modifies if stored == null then {} else {stored}
      ensures repository.tables == AdvanceCounter(old(repository.tables), app, |inputs|)
      ensures currentEpoch == null || currentEpoch == stored || fresh(currentEpoch)
      ensures forall e | e in epochInputs :: e == stored || fresh(e)
      ensures Represents(
                RenumberedCut(app, epochLength, old(DataOf(stored)), old(repository.tables), inputs,
                              world.shouldModifyIndex),
                currentEpoch, epochInputs, order)
    {
      hide RenumberedCut, CutStep, Renumbered, AdvanceCounter, Counter, Represents;
      ghost var before, storedData := repository.tables, DataOf(stored);
      currentEpoch, epochInputs, order := stored, map[], [];
      NoInputYet(app, epochLength, storedData, before, world.shouldModifyIndex);
      RepresentsNothing(storedData, stored);
      assert inputs[..0] == [] && inputs[..|inputs|] == inputs;
      for i := 0 to |inputs|
        invariant currentEpoch == null || currentEpoch == stored || fresh(currentEpoch)
        invariant forall e | e in epochInputs :: e == stored || fresh(e)
        invariant repository.tables == AdvanceCounter(before, app, i)
        invariant Represents(
            RenumberedCut(app, epochLength, storedData, before, inputs[..i],
                          world.shouldModifyIndex),
            currentEpoch, epochInputs, order)
      {
        ghost var c := RenumberedCut(app, epochLength, storedData, before, inputs[..i],
                                     world.shouldModifyIndex);
        CutNext(app, epochLength, storedData, before, inputs, world.shouldModifyIndex, i);
        CountNext(before, app, i);
        currentEpoch, epochInputs, order :=
          PlaceNext(app, epochLength, currentEpoch, epochInputs, inputs[i], c, order);
      }
    }

    /** One application's inputs, renumbered, cut into epochs and stored. */
    method StoreInputs(app: Address, inputs: seq<Input>, startBlock: nat, endBlock: nat)
      requires app in epochLengthCache && epochLengthCache[app] == world.epochLength(app) >= 1
      requires ChainOrdered(world.inputsAdded, app) && startBlock <= endBlock
      requires inputs == InputsIn(world.inputsAdded, app, startBlock, endBlock)
      requires CanonicalWindows(world, repository.tables, app)
      modifies repository
      ensures repository.tables
           == IngestBatch(world, old(repository.tables), app, startBlock, endBlock)
    {
      hide InputsIn, IngestBatch, CanonicalWindows, CurrentEpochIsOpen, RenumberedCut, FinishCut,
        BatchEntries, Entries, Represents, AdvanceCounter, ChainOrdered, Contents, AllOrNothing,
        Enumerates, StoredEpoch;
      var epochLength := epochLengthCache[app];
      var stored := repository.GetEpoch(CalculateEpochIndex(epochLength, startBlock), app);
      ghost var before := repository.tables;
      NoEpochStored(before, app, CalculateEpochIndex(epochLength, startBlock));
      OpenOrDropped(world, before, app, startBlock, endBlock, DataOf(stored));
      if stored != null && stored.status != Open {
        return;
      }
      InputsInMembers(world.inputsAdded, app, startBlock, endBlock);
      CutIsBatch(world, before, app, startBlock, endBlock);
      var currentEpoch, epochInputs, order := PlaceAll(app, epochLength, stored, inputs);
      ghost var c := RenumberedCut(
        app, epochLength, StoredEpoch(before, app, CalculateEpochIndex(epochLength, startBlock)),
        before, inputs, world.shouldModifyIndex);
      epochInputs, order := CloseLast(currentEpoch, epochInputs, endBlock, c, order);
      ghost var contents := Contents(epochInputs);
      var ok, walk := repository.StoreEpochAndInputsTransaction(
        epochInputs, endBlock, app, world.inputStoreFault(app, endBlock));
      StoredInAnyOrder(world, before, app, startBlock, endBlock, order, walk, contents, ok,
                       repository.tables);
    }

    /** Cached epoch lengths are those of the consensus contracts. */
    ghost predicate CacheRight()
      reads this
    {
      forall app | app in epochLengthCache :: epochLengthCache[app] == world.epochLength(app)
    }

    method AddAppEpochLengthIntoCache(app: Address)
      requires CacheRight()
      modifies this`epochLengthCache
      ensures CacheRight() && app in epochLengthCache
      ensures forall a | a in old(epochLengthCache) :: a in epochLengthCache
    {
      if app !in epochLengthCache {
        epochLengthCache := epochLengthCache[app := world.epochLength(app)];
      }
    }

    /** Read a block range for some applications and store what was found, application by application
        in some order. */
    method ReadAndStoreInputs(startBlock: nat, endBlock: nat, apps: seq<Address>)
      returns (ghost order: seq<Address>)
      requires CacheRight() && startBlock <= endBlock
      requires LengthsKnown(world, apps)
      requires forall app | app in apps :: ChainOrdered(world.inputsAdded, app)
      requires forall app | app in apps :: CanonicalWindows(world, repository.tables, app)
      modifies this, repository
      ensures CacheRight() && forall app | app in apps :: app in epochLengthCache
      ensures NoDuplicates(order) && (forall app :: app in order <==> app in apps)
      ensures LengthsKnown(world, order)
      ensures repository.tables
           == IngestAll(world, old(repository.tables), order, startBlock, endBlock)
      ensures ranges == old(ranges) + Asking(apps, startBlock, endBlock)
    {
      order := [];
      for i := 0 to |apps|
        invariant CacheRight() && forall k | 0 <= k < i :: apps[k] in epochLengthCache
        invariant ranges == old(ranges) && repository.tables == old(repository.tables)
      {
        AddAppEpochLengthIntoCache(apps[i]);
      }
      if |apps| == 0 {
        return;
      }
      var appInputs := ReadInputsFromBlockchain(apps, startBlock, endBlock);
      var todo := appInputs.Keys;
      while todo != {}
        invariant CacheRight() && forall app | app in apps :: app in epochLengthCache
        invariant ranges == old(ranges) + Asking(apps, startBlock, endBlock)
        invariant NoDuplicates(order) && todo <= appInputs.Keys
        invariant forall app :: app in order <==> app in appInputs && app !in todo
        invariant LengthsKnown(world, order)
        invariant forall app | app in todo :: CanonicalWindows(world, repository.tables, app)
        invariant repository.tables
               == IngestAll(world, old(repository.tables), order, startBlock, endBlock)
        decreases todo
      {
        var app :| app in todo;
        ghost var before := repository.tables;
        LengthOf(world, apps, app);
        StoreInputs(app, appInputs[app], startBlock, endBlock);
        OneAppDone(world, old(repository.tables), order, before, startBlock, endBlock, app, todo);
        todo := todo - {app};
        order := order + [app];
      }
    }

    /** The node's answer, in an order of its own. */
    method RetrieveClaimAcceptanceEvents(app: Address, startBlock: nat, endBlock: nat)
      returns (events: seq<ClaimAcceptance>)
      ensures events == ClaimAnswer(world, app, startBlock, endBlock)
    {
      events := ClaimAnswer(world, app, startBlock, endBlock);
    }

    /** The claim acceptances of an application by rising last block. */
    method ReadClaimsAcceptance(app: Address, startBlock: nat, endBlock: nat)
      returns (claims: seq<ClaimAcceptance>)
      ensures claims == ClaimEvents(world, app, startBlock, endBlock)
      ensures Sorting.SortedBy(LastBlockKey, claims)
      ensures multiset(claims) == multiset(ClaimAnswer(world, app, startBlock, endBlock))
    {
      hide ClaimAnswer;
      var events := RetrieveClaimAcceptanceEvents(app, startBlock, endBlock);
      claims := [];
      for i := 0 to |events|
        invariant claims == Sorting.SortArrivals(LastBlockKey, events[..i])
        invariant Sorting.SortedBy(LastBlockKey, claims)
      {
        assert events[..i + 1][..i] == events[..i];
        claims := Sorting.InsertSorted(LastBlockKey, claims, events[i]);
      }
      assert events[..|events|] == events;
      Sorting.SortedPermutation(LastBlockKey, events);
    }

    method CheckForClaimStatus(app: Address, lastClaimCheckBlock: nat, mostRecentBlock: nat)
      requires app in epochLengthCache && epochLengthCache[app] == world.epochLength(app) >= 1
      modifies repository
      ensures repository.tables
           == CheckClaims(world, old(repository.tables), app, lastClaimCheckBlock, mostRecentBlock)
    {
      hide ClaimEvents, ClaimPass;
      var lastClaimCheck := lastClaimCheckBlock;
      if lastClaimCheck < world.inputBoxDeploymentBlock {
        lastClaimCheck := world.inputBoxDeploymentBlock - 1;
      }
      if mostRecentBlock > lastClaimCheck {
        ReadAndUpdateClaims(app, lastClaimCheck, mostRecentBlock);
      }
    }

    /** Check the acceptance events against the stored epochs, up to the first that does not fit. */
    method ReadAndUpdateClaims(app: Address, lastClaimCheck: nat, mostRecentBlock: nat)
      requires app in epochLengthCache && epochLengthCache[app] == world.epochLength(app) >= 1
      modifies repository
      ensures var events :=
                ClaimEvents(world, app, lastClaimCheck + 1, mostRecentBlock);
              && OfOneApp(world, app, events)
              && repository.tables
                   == ClaimPass(world, old(repository.tables), app, mostRecentBlock, events, 0)
    {
      hide ClaimEvents, Judge, AcceptClaim;
      var claims := ReadClaimsAcceptance(app, lastClaimCheck + 1, mostRecentBlock);
      ClaimsAreOfApp(world, app, lastClaimCheck + 1, mostRecentBlock);
      ghost var before := repository.tables;
      for i := 0 to |claims|
        invariant ClaimPass(world, before, app, mostRecentBlock, claims, 0)
               == ClaimPass(world, repository.tables, app, mostRecentBlock, claims, i)
      {
        var goOn := CheckOneClaim(app, claims[i], world.claimUpdateFails(app, mostRecentBlock, i));
        if !goOn {
          return;
        }
      }
    }

    /** One acceptance event. The pass goes on after it or stops. */
    method CheckOneClaim(app: Address, claim: ClaimAcceptance, fails: bool) returns (goOn: bool)
      requires app in epochLengthCache && epochLengthCache[app] == world.epochLength(app) >= 1
      requires claim.app == app
      modifies repository
      ensures goOn <==> Judge(world, old(repository.tables), claim) != StopHere
      ensures repository.tables ==
        if Judge(world, old(repository.tables), claim) == AcceptNow && !fails
        then AcceptClaim(world, old(repository.tables), claim) else old(repository.tables)
    {
      var previousEpochs := repository.GetPreviousEpochsWithOpenClaims(app, claim.lastBlock);
      if previousEpochs != {} {
        return false;
      }
      var epoch := repository.GetEpoch(
        CalculateEpochIndex(epochLengthCache[app], claim.lastBlock), app);
      if epoch == null {
        return false;
      }
      if epoch.claimHash == None {
        return false;
      }
      if claim.claim != epoch.claimHash.value || claim.lastBlock != epoch.lastBlock {
        return false;
      }
      if epoch.status == ClaimAccepted {
        return true;
      }
      if epoch.status != ClaimSubmitted {
        return false;
      }
      epoch.status := ClaimAccepted;
      RecordOneStatus(repository.tables.epochs, (app, epoch.index), ClaimAccepted);
      assert StatusesOf([epoch]) == [((app, epoch.index), ClaimAccepted)];
      var _ := repository.UpdateEpochs(app, [epoch], claim.block, fails);
      goOn := true;
    }

    method RetrieveOutputExecutionEvents(app: Address, startBlock: nat, endBlock: nat)
      returns (events: seq<OutputExecuted>)
      ensures events == OutputsIn(world.outputsExecuted, app, startBlock, endBlock)
    {
      events := OutputsIn(world.outputsExecuted, app, startBlock, endBlock);
    }

    method CheckForOutputExecution(app: Address, lastOutputCheckBlock: nat, mostRecentBlock: nat)
      modifies repository
      ensures repository.tables
           == CheckOutputs(world, old(repository.tables), app, lastOutputCheckBlock, mostRecentBlock)
    {
      var lastOutputCheck := lastOutputCheckBlock;
      if lastOutputCheck < world.inputBoxDeploymentBlock {
        lastOutputCheck := world.inputBoxDeploymentBlock;
      }
      if mostRecentBlock > lastOutputCheck {
        ReadAndUpdateOutputs(app, lastOutputCheck, mostRecentBlock);
      }
    }

    /** The stored output of an event, with the event's hash, if the store has it with those bytes. */
    method ExecutedOutput(app: Address, event: OutputExecuted) returns (output: Output?)
      requires event.app == app
      ensures output == null <==> !Known(repository.tables.outputs, event)
      ensures output != null ==>
                fresh(output) && output.app == app && output.index == event.outputIndex
                && output.txHash == Some(event.txHash)
    {
      output := repository.GetOutput(app, event.outputIndex);
      if output == null {
        return;
      }
      if output.raw != event.output {
        return null;
      }
      output.txHash := Some(event.txHash);
    }

    /** Mark the executed outputs if the store knows them all. */
    method ReadAndUpdateOutputs(app: Address, lastOutputCheck: nat, mostRecentBlock: nat)
      modifies repository
      ensures var events :=
                OutputsIn(world.outputsExecuted, app, lastOutputCheck + 1, mostRecentBlock);
              var before := old(repository.tables);
              repository.tables ==
                if (exists e | e in events :: !Known(before.outputs, e))
                  || world.outputUpdateFails(app, mostRecentBlock) then before
                else SetOutputCheckBlock(before.(outputs := MarkOutputs(before.outputs, events)),
                                         app, mostRecentBlock)
    {
      hide Known, OutputsIn, MarkOutputs;
      var events := RetrieveOutputExecutionEvents(app, lastOutputCheck + 1, mostRecentBlock);
      OutputsInMembers(world.outputsExecuted, app, lastOutputCheck + 1, mostRecentBlock);
      var executedOutputs: seq<Output> := [];
      for i := 0 to |events|
        invariant repository.tables == old(repository.tables)
        invariant forall k | 0 <= k < i :: Known(repository.tables.outputs, events[k])
        invariant |executedOutputs| == i && forall o | o in executedOutputs :: fresh(o)
        invariant HashesOf(executedOutputs) == HashUpdates(events[..i])
      {
        assert events[i] in events;
        var output := ExecutedOutput(app, events[i]);
        if output == null {
          return;
        }
        assert HashUpdates(events[..i + 1])
            == HashUpdates(events[..i]) + [((app, output.index), output.txHash)];
        executedOutputs := executedOutputs + [output];
      }
      assert events[..|events|] == events;
      KnownOutputsAreMarked(repository.tables.outputs, events);
      var _ := repository.UpdateOutputExecutionTransaction(
        app, executedOutputs, mostRecentBlock, world.outputUpdateFails(app, mostRecentBlock));
    }
  }

  lemma LengthOf(world: World, apps: seq<Address>, app: Address)
    requires LengthsKnown(world, apps) && app in apps
    ensures world.epochLength(app) >= 1
  {
  }

  lemma OneAppDone(
    world: World, first: Db, order: seq<Address>, before: Db, startBlock: nat, endBlock: nat,
    app: Address, todo: set<Address>)
    requires LengthsKnown(world, order) && world.epochLength(app) >= 1 && startBlock <= endBlock
    requires ChainOrdered(world.inputsAdded, app)
    requires before == IngestAll(world, first, order, startBlock, endBlock)
    requires app in todo && forall a | a in todo :: CanonicalWindows(world, before, a)
    ensures LengthsKnown(world, order + [app])
    ensures var after := IngestBatch(world, before, app, startBlock, endBlock);
            && after == IngestAll(world, first, order + [app], startBlock, endBlock)
            && forall a | a in todo - {app} :: CanonicalWindows(world, after, a)
  {
    var after := IngestBatch(world, before, app, startBlock, endBlock);
    assert (order + [app])[..|order|] == order;
    if CurrentEpochIsOpen(world, before, app, startBlock) {
      BatchIsSegmented(world, before, app, startBlock, endBlock);
      BatchKeepsOtherEpochs(world, before, app, startBlock, endBlock);
      forall a | a in todo - {app} ensures CanonicalWindows(world, after, a) {
        WindowsElsewhere(world, before, after, app, a);
      }
    }
  }

  ghost function DataOf(e: Epoch?): Option<EpochData>
    reads e
  {
    if e == null then None else Some(e.Data())
  }

  /** The cut of inputs renumbered from the counter of `db` on. */
  ghost function RenumberedCut(
    app: Address, epochLength: nat, stored: Option<EpochData>, db: Db, inputs: seq<Input>,
    override: bool): CutState
    requires epochLength >= 1
  {
    CutInputs(app, epochLength, stored, RenumberAll(inputs, Counter(db, app), override))
  }

  lemma NoInputYet(
    app: Address, epochLength: nat, stored: Option<EpochData>, db: Db, override: bool)
    requires epochLength >= 1
    ensures RenumberedCut(app, epochLength, stored, db, [], override)
         == CutState([], stored, [], false)
    ensures AdvanceCounter(db, app, 0) == db
  {
  }

  lemma CutNext(
    app: Address, epochLength: nat, stored: Option<EpochData>, db: Db, inputs: seq<Input>,
    override: bool, i: nat)
    requires epochLength >= 1 && i < |inputs|
    ensures RenumberedCut(app, epochLength, stored, db, inputs[..i + 1], override)
         == CutStep(app, epochLength,
                    RenumberedCut(app, epochLength, stored, db, inputs[..i], override),
                    Renumbered(inputs[i], Counter(AdvanceCounter(db, app, i), app), override))
  {
    hide CutStep, Renumbered;
    CountNext(db, app, i);
    var n := Counter(db, app);
    var next := RenumberAll(inputs[..i + 1], n, override);
    assert next[..i] == RenumberAll(inputs[..i], n, override);
    assert next[i] == Renumbered(inputs[i], n + i, override);
  }

  lemma CountNext(db: Db, app: Address, i: nat)
    ensures Counter(AdvanceCounter(db, app, i), app) == Counter(db, app) + i
    ensures AdvanceCounter(AdvanceCounter(db, app, i), app, 1) == AdvanceCounter(db, app, i + 1)
  {
  }

  lemma NoEpochStored(db: Db, app: Address, index: nat)
    ensures (app, index) !in db.epochs ==> StoredEpoch(db, app, index) == None
  {
  }

  /** A batch whose first epoch is stored and not open is dropped. */
  lemma OpenOrDropped(
    world: World, db: Db, app: Address, startBlock: nat, endBlock: nat, stored: Option<EpochData>)
    requires world.epochLength(app) >= 1
    ensures stored == StoredEpoch(db, app, CalculateEpochIndex(world.epochLength(app), startBlock)) ==>
      if stored.Some? && stored.value.status != Open
      then IngestBatch(world, db, app, startBlock, endBlock) == db
      else CurrentEpochIsOpen(world, db, app, startBlock)
  {
  }

  lemma CutIsBatch(world: World, db: Db, app: Address, startBlock: nat, endBlock: nat)
    requires world.epochLength(app) >= 1
    ensures var epochLength := world.epochLength(app);
            var stored := StoredEpoch(db, app, CalculateEpochIndex(epochLength, startBlock));
            var inputs := InputsIn(world.inputsAdded, app, startBlock, endBlock);
            var c := RenumberedCut(app, epochLength, stored, db, inputs, world.shouldModifyIndex);
            Entries(FinishCut(c, endBlock)) == BatchEntries(world, db, app, startBlock, endBlock)
  {
  }

  /** Whatever order the transaction walked the map in, the outcome is that of the cut. */
  lemma StoredInAnyOrder(
    world: World, before: Db, app: Address, startBlock: nat, endBlock: nat,
    order: seq<Epoch>, walk: seq<Epoch>, contents: map<Epoch, Entry>, ok: bool, after: Db)
    requires world.epochLength(app) >= 1 && ChainOrdered(world.inputsAdded, app)
    requires startBlock <= endBlock
    requires CanonicalWindows(world, before, app) && CurrentEpochIsOpen(world, before, app, startBlock)
    requires Enumerates(order, contents) && Enumerates(walk, contents)
    requires Listed(order, contents) == BatchEntries(world, before, app, startBlock, endBlock)
    requires AllOrNothing(
               AdvanceCounter(before, app, |InputsIn(world.inputsAdded, app, startBlock, endBlock)|),
               Listed(walk, contents), endBlock, app, world.inputStoreFault(app, endBlock), ok, after)
    ensures after == IngestBatch(world, before, app, startBlock, endBlock)
  {
    BatchIsSegmented(world, before, app, startBlock, endBlock);
    SegmentsAreDistinct(app, world.epochLength(app), order, contents);
    var counted :=
      AdvanceCounter(before, app, |InputsIn(world.inputsAdded, app, startBlock, endBlock)|);
    WalkOrderIrrelevant(Some(counted), order, walk, contents);
  }

  lemma BatchIsSegmented(world: World, db: Db, app: Address, startBlock: nat, endBlock: nat)
    requires world.epochLength(app) >= 1 && ChainOrdered(world.inputsAdded, app)
    requires startBlock <= endBlock
    requires CanonicalWindows(world, db, app) && CurrentEpochIsOpen(world, db, app, startBlock)
    ensures Segmented(app, world.epochLength(app), BatchEntries(world, db, app, startBlock, endBlock))
  {
    var inputs := InputsIn(world.inputsAdded, app, startBlock, endBlock);
    InputsInMembers(world.inputsAdded, app, startBlock, endBlock);
    InputsInRise(world.inputsAdded, app, startBlock, endBlock);
    var batch := RenumberAll(inputs, Counter(db, app), world.shouldModifyIndex);
    assert forall i | 0 <= i < |batch| :: batch[i].block == inputs[i].block;
    var stored := StoredEpoch(db, app, CalculateEpochIndex(world.epochLength(app), startBlock));
    BatchSegmentation(app, world.epochLength(app), stored, batch, startBlock, endBlock);
  }

  lemma SegmentsAreDistinct(
    app: Address, epochLength: nat, order: seq<Epoch>, contents: map<Epoch, Entry>)
    requires epochLength >= 1 && Enumerates(order, contents)
    requires Segmented(app, epochLength, Listed(order, contents))
    ensures DistinctEpochs(contents)
  {
    var entries := Listed(order, contents);
    forall k, l | k in contents && l in contents && k != l
      ensures KeyOf(contents[k].epoch) != KeyOf(contents[l].epoch)
    {
      var i :| 0 <= i < |order| && order[i] == k;
      var j :| 0 <= j < |order| && order[j] == l;
      assert entries[i] == contents[k] && entries[j] == contents[l];
    }
  }

  lemma NothingArrived(appInputs: map<Address, seq<Input>>, startBlock: nat, endBlock: nat)
    requires forall app | app in appInputs :: appInputs[app] == []
    ensures ArrivedSorted(appInputs, [], startBlock, endBlock)
  {
  }

  lemma SortedSoFar(
    appInputs: map<Address, seq<Input>>, events: seq<InputAdded>, startBlock: nat, endBlock: nat,
    app: Address)
    requires app in appInputs && ArrivedSorted(appInputs, events, startBlock, endBlock)
    ensures Sorting.SortedBy(IndexKey, appInputs[app])
  {
    assert SortedHere(appInputs, events, startBlock, endBlock, app);
  }

  lemma AllArrived(
    world: World, apps: seq<Address>, appInputs: map<Address, seq<Input>>, startBlock: nat,
    endBlock: nat, events: seq<InputAdded>)
    requires multiset(events)
          == multiset(Matching(world.inputsAdded, Members(apps), startBlock, endBlock))
    requires appInputs.Keys == Members(apps) && ArrivedSorted(appInputs, events, startBlock, endBlock)
    ensures forall app | app in apps && ChainOrdered(world.inputsAdded, app) ::
              appInputs[app] == InputsIn(world.inputsAdded, app, startBlock, endBlock)
  {
    forall app | app in apps && ChainOrdered(world.inputsAdded, app)
      ensures appInputs[app] == InputsIn(world.inputsAdded, app, startBlock, endBlock)
    {
      assert SortedHere(appInputs, events, startBlock, endBlock, app);
      ArrivalsAgree(world, Members(apps), app, startBlock, endBlock, events);
    }
  }

  function Members(apps: seq<Address>): set<Address> {
    set app | app in apps
  }

  ghost predicate SortedHere(
    appInputs: map<Address, seq<Input>>, events: seq<InputAdded>, startBlock: nat, endBlock: nat,
    app: Address)
    requires app in appInputs
  {
    && appInputs[app] == Sorting.SortArrivals(IndexKey, InputsIn(events, app, startBlock, endBlock))
    && Sorting.SortedBy(IndexKey, appInputs[app])
  }

  ghost predicate ArrivedSorted(
    appInputs: map<Address, seq<Input>>, events: seq<InputAdded>, startBlock: nat, endBlock: nat)
  {
    forall app | app in appInputs :: SortedHere(appInputs, events, startBlock, endBlock, app)
  }

  lemma AnswerMembers(
    world: World, apps: set<Address>, startBlock: nat, endBlock: nat, events: seq<InputAdded>)
    requires multiset(events) == multiset(Matching(world.inputsAdded, apps, startBlock, endBlock))
    ensures forall i | 0 <= i < |events| ::
              events[i].app in apps && startBlock <= events[i].block <= endBlock
  {
    MatchingMembers(world.inputsAdded, apps, startBlock, endBlock);
    forall i | 0 <= i < |events|
      ensures events[i].app in apps && startBlock <= events[i].block <= endBlock
    {
      assert events[i] in multiset(events);
    }
  }

  lemma OneMoreArrival(
    before: map<Address, seq<Input>>, events: seq<InputAdded>, i: nat, startBlock: nat,
    endBlock: nat, sorted: seq<Input>)
    requires i < |events| && events[i].app in before && startBlock <= events[i].block <= endBlock
    requires ArrivedSorted(before, events[..i], startBlock, endBlock)
    requires sorted == Sorting.Insert(IndexKey, before[events[i].app], InputOf(events[i]))
    requires Sorting.SortedBy(IndexKey, sorted)
    ensures ArrivedSorted(before[events[i].app := sorted], events[..i + 1], startBlock, endBlock)
  {
    assert events[..i + 1][..i] == events[..i];
    var after := before[events[i].app := sorted];
    forall app | app in after ensures SortedHere(after, events[..i + 1], startBlock, endBlock, app) {
      assert SortedHere(before, events[..i], startBlock, endBlock, app);
    }
  }

  /** However the node orders its answer, sorting it gives the inputs in chain order. */
  lemma ArrivalsAgree(
    world: World, apps: set<Address>, app: Address, startBlock: nat, endBlock: nat,
    events: seq<InputAdded>)
    requires app in apps && ChainOrdered(world.inputsAdded, app)
    requires multiset(events) == multiset(Matching(world.inputsAdded, apps, startBlock, endBlock))
    ensures Sorting.SortArrivals(IndexKey, InputsIn(events, app, startBlock, endBlock))
         == InputsIn(world.inputsAdded, app, startBlock, endBlock)
  {
    var inputs := InputsIn(world.inputsAdded, app, startBlock, endBlock);
    InputsInPermuted(events, Matching(world.inputsAdded, apps, startBlock, endBlock), app,
                     startBlock, endBlock);
    MatchingSelects(world.inputsAdded, apps, app, startBlock, endBlock);
    InputsInRise(world.inputsAdded, app, startBlock, endBlock);
    RisingIsSorted(inputs);
    Sorting.ArrivalOrderIrrelevant(IndexKey, inputs, InputsIn(events, app, startBlock, endBlock));
  }
}
