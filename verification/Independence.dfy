/** Applications do not see each other (internal/espressoreader/espresso_reader.go, Run).

    All applications share the tables, and the reader takes them one after the other. A step for one of
    them leaves the part of every other alone, and what it does to its own part depends on nothing
    else. So what an application ends up with is what it would get if it were alone. */
module Independence {
  import opened Model
  import opened EpochMath
  import opened EpochCut
  import opened Tables
  import opened World
  import opened Ingest
  import opened EspressoInput
  import opened Claims
  import opened Outputs
  import opened ReaderSteps
  import opened Coverage

  /** The rows of `app` are the same. */
  ghost predicate RowsAgree<V>(a: map<(Address, nat), V>, b: map<(Address, nat), V>, app: Address) {
    forall n: nat ::
      ((app, n) in a <==> (app, n) in b) && ((app, n) in a ==> a[(app, n)] == b[(app, n)])
  }

  ghost predicate NoncesAgree(a: map<NonceKey, nat>, b: map<NonceKey, nat>, app: Address) {
    forall sender: Address :: NonceIn(a, sender, app) == NonceIn(b, sender, app)
  }

  ghost predicate AppAgrees(a: map<Address, AppRow>, b: map<Address, AppRow>, app: Address) {
    (app in a <==> app in b) && (app in a ==> a[app] == b[app])
  }

  /** The part of the tables that belongs to `app` is the same. */
  ghost predicate SameFor(a: Db, b: Db, app: Address) {
    && AppAgrees(a.apps, b.apps, app)
    && RowsAgree(a.epochs, b.epochs, app)
    && RowsAgree(a.inputs, b.inputs, app)
    && RowsAgree(a.outputs, b.outputs, app)
    && NoncesAgree(a.nonces, b.nonces, app)
    && Counter(a, app) == Counter(b, app)
    && EspressoBlock(a, app) == EspressoBlock(b, app)
  }

  lemma SameForItself(db: Db, app: Address)
    ensures SameFor(db, db, app)
  {
  }

  lemma SameForThrough(a: Db, b: Db, c: Db, app: Address)
    requires SameFor(a, b, app) && SameFor(b, c, app)
    ensures SameFor(a, c, app)
  {
  }

  lemma SameForBack(a: Db, b: Db, app: Address)
    requires SameFor(a, b, app)
    ensures SameFor(b, a, app)
  {
  }

  // ---- statements ----

  predicate StmtOf(s: Stmt, app: Address) {
    match s
    case UpsertEpoch(e) => e.app == app
    case InsertInput(i, into) => i.app == app && into.0 == app
  }

  predicate StmtsOf(stmts: seq<Stmt>, app: Address) {
    forall k | 0 <= k < |stmts| :: StmtOf(stmts[k], app)
  }

  lemma ExecApart(db: Db, s: Stmt, app: Address, other: Address)
    requires StmtOf(s, app) && other != app
    ensures Exec(db, s).Some? ==> SameFor(db, Exec(db, s).value, other)
  {
  }

  lemma ExecAlike(a: Db, b: Db, s: Stmt, app: Address)
    requires StmtOf(s, app) && SameFor(a, b, app)
    ensures Exec(a, s).Some? <==> Exec(b, s).Some?
    ensures Exec(a, s).Some? ==> SameFor(Exec(a, s).value, Exec(b, s).value, app)
  {
    match s {
      case UpsertEpoch(e) =>
        assert KeyOf(e) == (app, e.index);
      case InsertInput(i, into) =>
        assert into == (app, into.1);
    }
  }

  lemma {:induction false} RunApart(db: Db, stmts: seq<Stmt>, app: Address, other: Address)
    requires StmtsOf(stmts, app) && other != app
    ensures Run(Some(db), stmts).Some? ==> SameFor(db, Run(Some(db), stmts).value, other)
  {
    hide Exec, SameFor, StmtOf;
    SameForItself(db, other);
    if stmts != [] {
      var front, last := stmts[..|stmts| - 1], stmts[|stmts| - 1];
      RunApart(db, front, app, other);
      var before := Run(Some(db), front);
      if before.Some? && Exec(before.value, last).Some? {
        ExecApart(before.value, last, app, other);
        SameForThrough(db, before.value, Exec(before.value, last).value, other);
      }
    }
  }

  lemma {:induction false} RunAlike(a: Db, b: Db, stmts: seq<Stmt>, app: Address)
    requires StmtsOf(stmts, app) && SameFor(a, b, app)
    ensures var x, y := Run(Some(a), stmts), Run(Some(b), stmts);
            (x.Some? <==> y.Some?) && (x.Some? ==> SameFor(x.value, y.value, app))
  {
    hide Exec, SameFor, StmtOf;
    if stmts != [] {
      var front, last := stmts[..|stmts| - 1], stmts[|stmts| - 1];
      RunAlike(a, b, front, app);
      var x, y := Run(Some(a), front), Run(Some(b), front);
      if x.Some? {
        ExecAlike(x.value, y.value, last, app);
      }
    }
  }

  // ---- storing ----

  predicate InputsOf(inputs: seq<Input>, app: Address) {
    forall i | 0 <= i < |inputs| :: inputs[i].app == app
  }

  predicate EntriesOf(entries: seq<Entry>, app: Address) {
    forall k | 0 <= k < |entries| ::
      entries[k].epoch.app == app && InputsOf(entries[k].inputs, app)
  }

  lemma {:induction false} OwnStmts(entries: seq<Entry>, app: Address)
    requires EntriesOf(entries, app)
    ensures StmtsOf(EntriesStmts(entries), app)
  {
    if entries != [] {
      OwnStmts(entries[..|entries| - 1], app);
      OwnEntryStmts(entries[|entries| - 1], app);
    }
  }

  lemma OwnEntryStmts(e: Entry, app: Address)
    requires e.epoch.app == app && InputsOf(e.inputs, app)
    ensures StmtsOf(EntryStmts(e), app)
  {
  }

  lemma StoreApart(db: Db, entries: seq<Entry>, block: nat, app: Address, other: Address)
    requires EntriesOf(entries, app) && other != app
    ensures var after := StoreEntries(db, entries, block, app);
            after.Some? ==> SameFor(db, after.value, other)
  {
    hide EntriesStmts, Run, RowsAgree, NoncesAgree;
    OwnStmts(entries, app);
    RunApart(db, EntriesStmts(entries), app, other);
  }

  lemma StoreAlike(a: Db, b: Db, entries: seq<Entry>, block: nat, app: Address)
    requires EntriesOf(entries, app) && SameFor(a, b, app)
    ensures var x, y := StoreEntries(a, entries, block, app), StoreEntries(b, entries, block, app);
            (x.Some? <==> y.Some?) && (x.Some? ==> SameFor(x.value, y.value, app))
  {
    hide EntriesStmts, Run, RowsAgree, NoncesAgree;
    OwnStmts(entries, app);
    RunAlike(a, b, EntriesStmts(entries), app);
  }

  // ---- a batch of base-layer inputs ----

  predicate OwnCut(c: CutState, app: Address) {
    && EntriesOf(c.sealed, app) && InputsOf(c.filling, app)
    && (c.current.Some? ==> c.current.value.app == app)
  }

  lemma {:induction false} CutsOwn(
    app: Address, epochLength: nat, stored: Option<EpochData>, inputs: seq<Input>)
    requires epochLength >= 1 && InputsOf(inputs, app)
    requires stored.Some? ==> stored.value.app == app
    ensures OwnCut(CutInputs(app, epochLength, stored, inputs), app)
  {
    hide CalculateEpochIndex, FirstBlock, LastBlock;
    if inputs != [] {
      CutsOwn(app, epochLength, stored, inputs[..|inputs| - 1]);
    }
  }

  lemma BatchIsOwn(world: World, db: Db, app: Address, startBlock: nat, endBlock: nat)
    requires world.epochLength(app) >= 1
    ensures EntriesOf(BatchEntries(world, db, app, startBlock, endBlock), app)
  {
    hide CutInputs, CalculateEpochIndex, Renumbered, InputsIn;
    var epochLength := world.epochLength(app);
    var stored := StoredEpoch(db, app, CalculateEpochIndex(epochLength, startBlock));
    var inputs := InputsIn(world.inputsAdded, app, startBlock, endBlock);
    var batch := RenumberAll(inputs, Counter(db, app), world.shouldModifyIndex);
    InputsInMembers(world.inputsAdded, app, startBlock, endBlock);
    forall i | 0 <= i < |batch| ensures batch[i].app == app {
      RenumberedApp(inputs[i], Counter(db, app) + i, world.shouldModifyIndex);
    }
    CutsOwn(app, epochLength, stored, batch);
  }

  lemma RenumberedApp(input: Input, counter: nat, override: bool)
    ensures Renumbered(input, counter, override).app == input.app
  {
  }

  lemma CountedApart(db: Db, app: Address, n: nat, other: Address)
    requires other != app
    ensures SameFor(db, AdvanceCounter(db, app, n), other)
  {
    hide RowsAgree, NoncesAgree;
    assert RowsAgree(db.epochs, db.epochs, other) && RowsAgree(db.inputs, db.inputs, other)
        && RowsAgree(db.outputs, db.outputs, other) && NoncesAgree(db.nonces, db.nonces, other) by {
      SameForItself(db, other);
    }
  }

  lemma CountedAlike(a: Db, b: Db, app: Address, n: nat)
    requires SameFor(a, b, app)
    ensures SameFor(AdvanceCounter(a, app, n), AdvanceCounter(b, app, n), app)
  {
    hide RowsAgree, NoncesAgree;
  }

  lemma IngestApart(
    world: World, db: Db, app: Address, startBlock: nat, endBlock: nat, other: Address)
    requires world.epochLength(app) >= 1 && other != app
    ensures SameFor(db, IngestBatch(world, db, app, startBlock, endBlock), other)
  {
    hide BatchEntries, StoreEntries, EntriesStmts, InputsIn, CurrentEpochIsOpen, SameFor, AdvanceCounter,
      Survives, EntriesOf;
    var n := |InputsIn(world.inputsAdded, app, startBlock, endBlock)|;
    var counted, entries := AdvanceCounter(db, app, n),
                            BatchEntries(world, db, app, startBlock, endBlock);
    BatchIsOwn(world, db, app, startBlock, endBlock);
    SameForItself(db, other);
    CountedApart(db, app, n, other);
    StoreApart(counted, entries, endBlock, app, other);
    var stored := StoreEntries(counted, entries, endBlock, app);
    if stored.Some? {
      SameForThrough(db, counted, stored.value, other);
    }
  }

  lemma BatchAlike(world: World, a: Db, b: Db, app: Address, startBlock: nat, endBlock: nat)
    requires world.epochLength(app) >= 1 && SameFor(a, b, app)
    ensures CurrentEpochIsOpen(world, a, app, startBlock)
       <==> CurrentEpochIsOpen(world, b, app, startBlock)
    ensures BatchEntries(world, a, app, startBlock, endBlock)
         == BatchEntries(world, b, app, startBlock, endBlock)
  {
    hide CutInputs, CalculateEpochIndex, RenumberAll, InputsIn;
    var index := CalculateEpochIndex(world.epochLength(app), startBlock);
    assert StoredEpoch(a, app, index) == StoredEpoch(b, app, index);
  }

  lemma IngestAlike(world: World, a: Db, b: Db, app: Address, startBlock: nat, endBlock: nat)
    requires world.epochLength(app) >= 1 && SameFor(a, b, app)
    ensures SameFor(IngestBatch(world, a, app, startBlock, endBlock),
                    IngestBatch(world, b, app, startBlock, endBlock), app)
  {
    hide BatchEntries, StoreEntries, EntriesStmts, InputsIn, CurrentEpochIsOpen, SameFor, AdvanceCounter,
      Survives, EntriesOf;
    var n := |InputsIn(world.inputsAdded, app, startBlock, endBlock)|;
    BatchAlike(world, a, b, app, startBlock, endBlock);
    BatchIsOwn(world, a, app, startBlock, endBlock);
    CountedAlike(a, b, app, n);
    StoreAlike(AdvanceCounter(a, app, n), AdvanceCounter(b, app, n),
               BatchEntries(world, a, app, startBlock, endBlock), endBlock, app);
  }

  // ---- an Espresso transaction ----

  lemma DeliverApart(world: World, db: Db, app: Address, h: nat, i: nat, other: Address)
    requires world.epochLength(app) >= 1 && i < |world.transactions(h)| && other != app
    ensures SameFor(db, DeliverTx(world, db, app, h, i), other)
  {
    hide Admissible, EspressoEntries, StoreEntries, Survives, RowsAgree;
    SameForItself(db, other);
    if Admissible(world, app, db.nonces, h, i) {
      EspressoIsOwn(world, db, app, h, i);
      StoreApart(db, EspressoEntries(world, db, app, h, i), world.l1FinalizedHeight(h), app, other);
    }
  }

  lemma EspressoIsOwn(world: World, db: Db, app: Address, h: nat, i: nat)
    requires world.epochLength(app) >= 1 && i < |world.transactions(h)|
    requires Admissible(world, app, db.nonces, h, i)
    ensures EntriesOf(EspressoEntries(world, db, app, h, i), app)
  {
    hide CalculateEpochIndex, PayloadBytes;
  }

  lemma EspressoAlike(world: World, a: Db, b: Db, app: Address, h: nat, i: nat)
    requires world.epochLength(app) >= 1 && i < |world.transactions(h)| && SameFor(a, b, app)
    ensures Admissible(world, app, a.nonces, h, i) <==> Admissible(world, app, b.nonces, h, i)
    ensures Admissible(world, app, a.nonces, h, i) ==>
              EspressoEntries(world, a, app, h, i) == EspressoEntries(world, b, app, h, i)
  {
    hide CalculateEpochIndex, PayloadBytes;
    assert StoredEpoch(a, app, world.epochLength(app)) == StoredEpoch(b, app, world.epochLength(app));
  }

  lemma DeliverAlike(world: World, a: Db, b: Db, app: Address, h: nat, i: nat)
    requires world.epochLength(app) >= 1 && i < |world.transactions(h)| && SameFor(a, b, app)
    ensures SameFor(DeliverTx(world, a, app, h, i), DeliverTx(world, b, app, h, i), app)
  {
    hide Admissible, EspressoEntries, StoreEntries, Survives, SameFor, SetNonce, SetCounter, Nonce,
      Counter;
    EspressoAlike(world, a, b, app, h, i);
    if Admissible(world, app, a.nonces, h, i) {
      EspressoIsOwn(world, a, app, h, i);
      var entries, block := EspressoEntries(world, a, app, h, i), world.l1FinalizedHeight(h);
      StoreAlike(a, b, entries, block, app);
      var x, y := StoreEntries(a, entries, block, app), StoreEntries(b, entries, block, app);
      SignedIfAdmissible(world, a, app, h, i);
      if x.Some? {
        CountAlike(x.value, y.value, world.transactions(h)[i].sender, app);
      }
    }
  }

  lemma SignedIfAdmissible(world: World, db: Db, app: Address, h: nat, i: nat)
    requires i < |world.transactions(h)| && Admissible(world, app, db.nonces, h, i)
    ensures world.transactions(h)[i].Signed?
  {
  }

  lemma CountAlike(a: Db, b: Db, sender: Address, app: Address)
    requires SameFor(a, b, app)
    ensures SameFor(
      SetCounter(SetNonce(a, sender, app, Nonce(a, sender, app) + 1), app, Counter(a, app) + 1),
      SetCounter(SetNonce(b, sender, app, Nonce(b, sender, app) + 1), app, Counter(b, app) + 1), app)
  {
    hide RowsAgree;
    var n := Nonce(a, sender, app) + 1;
    assert Nonce(b, sender, app) + 1 == n;
    var x, y := a.nonces[(sender, app) := n], b.nonces[(sender, app) := n];
    forall s: Address ensures NonceIn(x, s, app) == NonceIn(y, s, app) {
      assert NonceIn(a.nonces, s, app) == NonceIn(b.nonces, s, app);
    }
  }

  // ---- claims ----

  lemma ClaimsApart(
    world: World, db: Db, app: Address, lastClaimCheck: nat, mostRecent: nat, other: Address)
    requires world.epochLength(app) >= 1 && other != app
    ensures SameFor(db, CheckClaims(world, db, app, lastClaimCheck, mostRecent), other)
  {
    hide ClaimPass, ClaimEvents;
    var start := ClaimStart(world, lastClaimCheck);
    if mostRecent > start {
      var events := ClaimEvents(world, app, start + 1, mostRecent);
      ClaimsAreOfApp(world, app, start + 1, mostRecent);
      PassTouchesOnlyClaims(world, db, app, mostRecent, events, 0);
    }
  }

  lemma OpenClaimsAlike(a: Db, b: Db, app: Address, block: nat)
    requires RowsAgree(a.epochs, b.epochs, app)
    ensures OpenClaimsBefore(a, app, block) == OpenClaimsBefore(b, app, block)
  {
    forall key: EpochKey
      ensures key in OpenClaimsBefore(a, app, block) <==> key in OpenClaimsBefore(b, app, block)
    {
      assert key.0 == app ==> key == (app, key.1);
    }
  }

  lemma JudgeAlike(world: World, a: Db, b: Db, e: ClaimAcceptance)
    requires world.epochLength(e.app) >= 1 && RowsAgree(a.epochs, b.epochs, e.app)
    ensures Judge(world, a, e) == Judge(world, b, e)
    ensures Judge(world, a, e) == AcceptNow ==>
              ClaimKey(world, e) in a.epochs && ClaimKey(world, e) in b.epochs
  {
    hide CalculateEpochIndex, OpenClaimsBefore;
    OpenClaimsAlike(a, b, e.app, e.lastBlock);
  }

  lemma AcceptAlike(world: World, a: Db, b: Db, e: ClaimAcceptance)
    requires world.epochLength(e.app) >= 1 && SameFor(a, b, e.app)
    requires ClaimKey(world, e) in a.epochs && ClaimKey(world, e) in b.epochs
    ensures SameFor(AcceptClaim(world, a, e), AcceptClaim(world, b, e), e.app)
  {
    hide CalculateEpochIndex, RowsAgree, NoncesAgree, Counter, EspressoBlock, SetClaimCheckBlock, AppAgrees;
    var n := CalculateEpochIndex(world.epochLength(e.app), e.lastBlock);
    OneRow(a.epochs, b.epochs, e.app, n);
    var row := a.epochs[(e.app, n)].(status := ClaimAccepted);
    UpdateAlike(a.epochs, b.epochs, e.app, n, row);
    AcceptedAlike(a, b, a.epochs[(e.app, n) := row], b.epochs[(e.app, n) := row], e.app, e.block);
  }

  lemma AcceptedAlike(
    a: Db, b: Db, x: map<EpochKey, EpochRow>, y: map<EpochKey, EpochRow>, app: Address, block: nat)
    requires SameFor(a, b, app) && RowsAgree(x, y, app)
    ensures SameFor(SetClaimCheckBlock(a.(epochs := x), app, block),
                    SetClaimCheckBlock(b.(epochs := y), app, block), app)
  {
    hide RowsAgree, NoncesAgree;
  }

  lemma OneRow<V>(a: map<(Address, nat), V>, b: map<(Address, nat), V>, app: Address, n: nat)
    requires RowsAgree(a, b, app)
    ensures (app, n) in a <==> (app, n) in b
    ensures (app, n) in a ==> a[(app, n)] == b[(app, n)]
  {
  }

  lemma UpdateAlike<V>(
    a: map<(Address, nat), V>, b: map<(Address, nat), V>, app: Address, n: nat, v: V)
    requires RowsAgree(a, b, app)
    ensures RowsAgree(a[(app, n) := v], b[(app, n) := v], app)
  {
    forall m: nat ensures (app, m) in a <==> (app, m) in b {
      OneRow(a, b, app, m);
    }
  }

  lemma {:induction false} ClaimPassAlike(
    world: World, a: Db, b: Db, app: Address, mostRecent: nat, events: seq<ClaimAcceptance>, i: nat)
    requires OfOneApp(world, app, events) && i <= |events| && SameFor(a, b, app)
    ensures SameFor(ClaimPass(world, a, app, mostRecent, events, i),
                    ClaimPass(world, b, app, mostRecent, events, i), app)
    decreases |events| - i
  {
    hide Judge, AcceptClaim, RowsAgree, NoncesAgree, ClaimPass, ClaimKey;
    PassStep(world, a, app, mostRecent, events, i);
    PassStep(world, b, app, mostRecent, events, i);
    if i < |events| {
      JudgeAlike(world, a, b, events[i]);
      if Judge(world, a, events[i]) == AcceptNow {
        AcceptAlike(world, a, b, events[i]);
      }
      if Judge(world, a, events[i]) != StopHere {
        ClaimPassAlike(world, AfterEvent(world, a, app, mostRecent, events, i),
                       AfterEvent(world, b, app, mostRecent, events, i), app, mostRecent, events, i + 1);
      }
    }
  }

  lemma ClaimsAlike(world: World, a: Db, b: Db, app: Address, lastClaimCheck: nat, mostRecent: nat)
    requires world.epochLength(app) >= 1 && SameFor(a, b, app)
    ensures SameFor(CheckClaims(world, a, app, lastClaimCheck, mostRecent),
                    CheckClaims(world, b, app, lastClaimCheck, mostRecent), app)
  {
    hide ClaimPass, ClaimEvents, SameFor;
    var start := ClaimStart(world, lastClaimCheck);
    if mostRecent > start {
      ClaimsAreOfApp(world, app, start + 1, mostRecent);
      ClaimPassAlike(world, a, b, app, mostRecent, ClaimEvents(world, app, start + 1, mostRecent), 0);
    }
  }

  // ---- outputs ----

  /** Marking for `app` writes no other rows, and writes its own from its own. */
  lemma {:induction false} MarksApart(
    outputs: map<OutputKey, OutputRow>, app: Address, events: seq<OutputExecuted>, other: Address)
    requires forall e | e in events :: e.app == app && Known(outputs, e)
    requires other != app
    ensures RowsAgree(outputs, MarkOutputs(outputs, events), other)
  {
    if events != [] {
      MarksApart(outputs, app, events[..|events| - 1], other);
    }
  }

  lemma KnownAlike(
    a: map<OutputKey, OutputRow>, b: map<OutputKey, OutputRow>, app: Address, e: OutputExecuted)
    requires RowsAgree(a, b, app) && e.app == app
    ensures Known(a, e) <==> Known(b, e)
  {
  }

  lemma AllKnownAlike(
    a: map<OutputKey, OutputRow>, b: map<OutputKey, OutputRow>, app: Address,
    events: seq<OutputExecuted>)
    requires RowsAgree(a, b, app) && forall e | e in events :: e.app == app
    ensures (exists e | e in events :: !Known(a, e)) <==> (exists e | e in events :: !Known(b, e))
  {
    hide Known, RowsAgree;
    forall e | e in events ensures Known(a, e) <==> Known(b, e) {
      KnownAlike(a, b, app, e);
    }
  }

  lemma {:induction false} MarksAlike(
    a: map<OutputKey, OutputRow>, b: map<OutputKey, OutputRow>, app: Address,
    events: seq<OutputExecuted>)
    requires RowsAgree(a, b, app)
    requires forall e | e in events :: e.app == app && Known(a, e)
    ensures forall e | e in events :: Known(b, e)
    ensures RowsAgree(MarkOutputs(a, events), MarkOutputs(b, events), app)
  {
    forall e | e in events ensures Known(b, e) {
      KnownAlike(a, b, app, e);
    }
    if events != [] {
      MarksAlike(a, b, app, events[..|events| - 1]);
      assert Known(a, events[|events| - 1]);
    }
  }

  lemma OutputsApart(
    world: World, db: Db, app: Address, lastOutputCheck: nat, mostRecent: nat, other: Address)
    requires other != app
    ensures SameFor(db, CheckOutputs(world, db, app, lastOutputCheck, mostRecent), other)
  {
    hide Known, OutputsIn, MarkOutputs, RowsAgree, NoncesAgree;
    SameForItself(db, other);
    var start := OutputStart(world, lastOutputCheck);
    var events := OutputsIn(world.outputsExecuted, app, start + 1, mostRecent);
    OutputsInMembers(world.outputsExecuted, app, start + 1, mostRecent);
    if forall e | e in events :: Known(db.outputs, e) {
      MarksApart(db.outputs, app, events, other);
    }
  }

  lemma OutputsAlike(world: World, a: Db, b: Db, app: Address, lastOutputCheck: nat, mostRecent: nat)
    requires SameFor(a, b, app)
    ensures SameFor(CheckOutputs(world, a, app, lastOutputCheck, mostRecent),
                    CheckOutputs(world, b, app, lastOutputCheck, mostRecent), app)
  {
    hide Known, OutputsIn, MarkOutputs, RowsAgree, NoncesAgree, SetOutputCheckBlock, Counter,
      EspressoBlock, AppAgrees;
    var start := OutputStart(world, lastOutputCheck);
    var events := OutputsIn(world.outputsExecuted, app, start + 1, mostRecent);
    OutputsInMembers(world.outputsExecuted, app, start + 1, mostRecent);
    AllKnownAlike(a.outputs, b.outputs, app, events);
    if mostRecent > start && forall e | e in events :: Known(a.outputs, e) {
      MarksAlike(a.outputs, b.outputs, app, events);
      MarkedAlike(a, b, MarkOutputs(a.outputs, events), MarkOutputs(b.outputs, events), app,
                  mostRecent);
    }
  }

  lemma MarkedAlike(
    a: Db, b: Db, x: map<OutputKey, OutputRow>, y: map<OutputKey, OutputRow>, app: Address,
    block: nat)
    requires SameFor(a, b, app) && RowsAgree(x, y, app)
    ensures SameFor(SetOutputCheckBlock(a.(outputs := x), app, block),
                    SetOutputCheckBlock(b.(outputs := y), app, block), app)
  {
    hide RowsAgree, NoncesAgree;
  }

  // ---- a block, and a pass ----

  lemma ReadL1Apart(
    world: World, db: Db, app: Address, snapshot: AppRow, h: nat, cursor: nat, other: Address)
    requires world.epochLength(app) >= 1 && other != app
    ensures SameFor(db, ReadL1(world, db, app, snapshot, h, cursor), other)
  {
    hide IngestBatch, CheckClaims, CheckOutputs, SameFor;
    var f := world.l1FinalizedHeight(h);
    SameForItself(db, other);
    if f > cursor {
      var ingested := IngestBatch(world, db, app, cursor + 1, f);
      var claimed := CheckClaims(world, ingested, app, snapshot.lastClaimCheckBlock, f);
      var after := CheckOutputs(world, claimed, app, snapshot.lastOutputCheckBlock, f);
      IngestApart(world, db, app, cursor + 1, f, other);
      ClaimsApart(world, ingested, app, snapshot.lastClaimCheckBlock, f, other);
      OutputsApart(world, claimed, app, snapshot.lastOutputCheckBlock, f, other);
      SameForThrough(db, ingested, claimed, other);
      SameForThrough(db, claimed, after, other);
    }
  }

  lemma ReadL1Alike(
    world: World, a: Db, b: Db, app: Address, snapshot: AppRow, h: nat, cursor: nat)
    requires world.epochLength(app) >= 1 && SameFor(a, b, app)
    ensures SameFor(ReadL1(world, a, app, snapshot, h, cursor),
                    ReadL1(world, b, app, snapshot, h, cursor), app)
  {
    hide IngestBatch, CheckClaims, CheckOutputs, SameFor;
    var f := world.l1FinalizedHeight(h);
    if f > cursor {
      var x, y := IngestBatch(world, a, app, cursor + 1, f), IngestBatch(world, b, app, cursor + 1, f);
      IngestAlike(world, a, b, app, cursor + 1, f);
      ClaimsAlike(world, x, y, app, snapshot.lastClaimCheckBlock, f);
      OutputsAlike(world, CheckClaims(world, x, app, snapshot.lastClaimCheckBlock, f),
                   CheckClaims(world, y, app, snapshot.lastClaimCheckBlock, f), app,
                   snapshot.lastOutputCheckBlock, f);
    }
  }

  lemma {:induction false} DeliverUpToApart(
    world: World, db: Db, app: Address, h: nat, n: nat, other: Address)
    requires world.epochLength(app) >= 1 && n <= |world.transactions(h)| && other != app
    ensures SameFor(db, DeliverUpTo(world, db, app, h, n), other)
  {
    hide DeliverTx, SameFor;
    if n == 0 {
      SameForItself(db, other);
    } else {
      var before := DeliverUpTo(world, db, app, h, n - 1);
      DeliverUpToApart(world, db, app, h, n - 1, other);
      DeliverApart(world, before, app, h, n - 1, other);
      SameForThrough(db, before, DeliverTx(world, before, app, h, n - 1), other);
    }
  }

  lemma {:induction false} DeliverUpToAlike(world: World, a: Db, b: Db, app: Address, h: nat, n: nat)
    requires world.epochLength(app) >= 1 && n <= |world.transactions(h)| && SameFor(a, b, app)
    ensures SameFor(DeliverUpTo(world, a, app, h, n), DeliverUpTo(world, b, app, h, n), app)
  {
    hide DeliverTx, SameFor;
    if n > 0 {
      DeliverUpToAlike(world, a, b, app, h, n - 1);
      DeliverAlike(world, DeliverUpTo(world, a, app, h, n - 1), DeliverUpTo(world, b, app, h, n - 1),
                   app, h, n - 1);
    }
  }

  lemma MarkApart(db: Db, app: Address, mark: Option<nat>, other: Address)
    requires other != app
    ensures SameFor(db, StoreMark(db, app, mark), other)
  {
  }

  lemma MarkAlike(a: Db, b: Db, app: Address, mark: Option<nat>)
    requires SameFor(a, b, app)
    ensures SameFor(StoreMark(a, app, mark), StoreMark(b, app, mark), app)
  {
    hide RowsAgree, NoncesAgree;
  }

  lemma {:induction false} VisitAllApart(
    world: World, db: Db, app: Address, snapshot: AppRow, hs: seq<nat>, cursor: nat,
    mark: Option<nat>, other: Address)
    requires world.epochLength(app) >= 1 && other != app
    ensures SameFor(db, VisitAll(world, db, app, snapshot, hs, cursor, mark), other)
  {
    hide ReadL1, DeliverUpTo, StoreMark, SameFor, CursorOver;
    if hs == [] {
      SameForItself(db, other);
    } else {
      var front, h := hs[..|hs| - 1], hs[|hs| - 1];
      var before := VisitAll(world, db, app, snapshot, front, cursor, mark);
      var read := ReadL1(world, before, app, snapshot, h, CursorOver(world, front, cursor));
      var visited := DeliverUpTo(world, read, app, h, |world.transactions(h)|);
      VisitAllApart(world, db, app, snapshot, front, cursor, mark, other);
      ReadL1Apart(world, before, app, snapshot, h, CursorOver(world, front, cursor), other);
      DeliverUpToApart(world, read, app, h, |world.transactions(h)|, other);
      MarkApart(visited, app, mark, other);
      SameForThrough(db, before, read, other);
      SameForThrough(db, read, visited, other);
      SameForThrough(db, visited, StoreMark(visited, app, mark), other);
    }
  }

  lemma {:induction false} VisitAllAlike(
    world: World, a: Db, b: Db, app: Address, snapshot: AppRow, hs: seq<nat>, cursor: nat,
    mark: Option<nat>)
    requires world.epochLength(app) >= 1 && SameFor(a, b, app)
    ensures SameFor(VisitAll(world, a, app, snapshot, hs, cursor, mark),
                    VisitAll(world, b, app, snapshot, hs, cursor, mark), app)
  {
    hide ReadL1, DeliverUpTo, StoreMark, SameFor, CursorOver;
    if hs != [] {
      var front, h := hs[..|hs| - 1], hs[|hs| - 1];
      var x := VisitAll(world, a, app, snapshot, front, cursor, mark);
      var y := VisitAll(world, b, app, snapshot, front, cursor, mark);
      var from, n := CursorOver(world, front, cursor), |world.transactions(h)|;
      VisitAllAlike(world, a, b, app, snapshot, front, cursor, mark);
      ReadL1Alike(world, x, y, app, snapshot, h, from);
      var p := ReadL1(world, x, app, snapshot, h, from);
      var q := ReadL1(world, y, app, snapshot, h, from);
      DeliverUpToAlike(world, p, q, app, h, n);
      MarkAlike(DeliverUpTo(world, p, app, h, n), DeliverUpTo(world, q, app, h, n), app, mark);
    }
  }

  /** A pass for one application leaves the part of every other alone. */
  lemma PassApart(
    world: World, db: Db, app: Address, snapshot: AppRow, latest: nat, other: Address)
    requires world.epochLength(app) >= 1 && other != app
    ensures SameFor(db, AppPass(world, db, app, snapshot, latest), other)
  {
    hide VisitAll, PassVisits, CatchesUp, SameFor;
    var last := EspressoBlock(db, app);
    var hs, from := PassVisits(world, latest, last), StartCursor(world, snapshot);
    if CatchesUp(latest, last) {
      var visited := VisitAll(world, db, app, snapshot, hs, from, None);
      VisitAllApart(world, db, app, snapshot, hs, from, None, other);
      MarkApart(visited, app, Some(latest), other);
      SameForThrough(db, visited, StoreMark(visited, app, Some(latest)), other);
    } else {
      VisitAllApart(world, db, app, snapshot, hs, from, Some(latest), other);
    }
  }

  /** What it does to its own part depends on nothing else in the tables. */
  lemma PassAlike(world: World, a: Db, b: Db, app: Address, snapshot: AppRow, latest: nat)
    requires world.epochLength(app) >= 1 && SameFor(a, b, app)
    ensures SameFor(AppPass(world, a, app, snapshot, latest), AppPass(world, b, app, snapshot, latest),
                    app)
  {
    hide VisitAll, PassVisits, CatchesUp, RowsAgree, NoncesAgree, AppAgrees;
    var last := EspressoBlock(a, app);
    var hs, from := PassVisits(world, latest, last), StartCursor(world, snapshot);
    VisitAllAlike(world, a, b, app, snapshot, hs, from, None);
    VisitAllAlike(world, a, b, app, snapshot, hs, from, Some(latest));
    MarkAlike(VisitAll(world, a, app, snapshot, hs, from, None),
              VisitAll(world, b, app, snapshot, hs, from, None), app, Some(latest));
  }
}
