/** Every reachable state of one application, however the reader's steps interleave with each other
    and with what other components do to the same tables.

    Unlike in `RunRefinement` nothing is said about which step comes when. Espresso stores may fail at
    any statement, and so may claim and output updates; base-layer stores and the updates after a
    commit succeed. */
module Interleaving {
  import opened Model
  import opened Tables
  import opened World
  import opened Ingest
  import opened Ledger
  import opened IngestRefinement
  import opened EspressoInput
  import opened EspressoRefinement
  import opened Claims
  import opened ClaimCursor
  import opened Outputs
  import opened CatchUp
  import opened ReaderSteps
  import opened LogFacts

  /** The tables, and how far the base layer has been read for the application. */
  datatype State = State(db: Db, cursor: nat)

  datatype Action =
    | ReadBaseLayer(to: nat)
    | DeliverTransaction(block: nat, position: nat)
    | CheckClaimsFrom(snapshot: nat, mostRecent: nat)
    | CheckOutputsFrom(snapshot: nat, mostRecent: nat)
    | SomeoneElse(db: Db)

  /** What advancer, validator and claimer, and the reader's work for other applications, leave alone:
      inputs, counter and cursors of `app`; those of its outputs that are there; and its epochs, of which
      an open one stays open and an accepted one as it is, while any other may get any status, open
      included, and any claim. */
  ghost predicate Outside(before: Db, after: Db, app: Address) {
    && Quiet(before, after, app)
    && app in before.apps && app in after.apps && after.apps[app] == before.apps[app]
    && (forall key: EpochKey | key.0 == app && key in before.epochs && key in after.epochs ::
          before.epochs[key].status == ClaimAccepted ==> after.epochs[key] == before.epochs[key])
    && (forall key: OutputKey | key.0 == app && key in before.outputs ::
          key in after.outputs && after.outputs[key] == before.outputs[key])
  }

  /** The step may be taken. Transactions of an Espresso block come when the base layer has been read
      up to the height it names; snapshots of a cursor are not ahead of it. */
  ghost predicate Enabled(world: World, app: Address, s: State, a: Action) {
    && world.epochLength(app) >= 1 && app in s.db.apps
    && (match a
        case ReadBaseLayer(to) => s.cursor < to && world.inputStoreFault(app, to).None?
        case DeliverTransaction(h, i) =>
          world.l1FinalizedHeight(h) == s.cursor && i < |world.transactions(h)|
        case CheckClaimsFrom(snapshot, mostRecent) =>
          snapshot <= s.db.apps[app].lastClaimCheckBlock && mostRecent <= s.cursor
        case CheckOutputsFrom(snapshot, mostRecent) =>
          snapshot <= s.db.apps[app].lastOutputCheckBlock && mostRecent <= s.cursor
        case SomeoneElse(db) => Outside(s.db, db, app))
  }

  function Next(world: World, app: Address, s: State, a: Action): State
    requires world.epochLength(app) >= 1
    requires a.DeliverTransaction? ==> a.position < |world.transactions(a.block)|
  {
    match a
    case ReadBaseLayer(to) => State(IngestBatch(world, s.db, app, s.cursor + 1, to), to)
    case DeliverTransaction(h, i) => s.(db := DeliverTx(world, s.db, app, h, i))
    case CheckClaimsFrom(snapshot, mostRecent) =>
      s.(db := CheckClaims(world, s.db, app, snapshot, mostRecent))
    case CheckOutputsFrom(snapshot, mostRecent) =>
      s.(db := CheckOutputs(world, s.db, app, snapshot, mostRecent))
    case SomeoneElse(db) => s.(db := db)
  }

  /** Claims are accepted after the last block they are about. */
  ghost predicate ClaimsComeLater(world: World, app: Address) {
    forall e | e in world.claimAcceptances && e.app == app :: e.lastBlock < e.block
  }

  ghost predicate Environment(world: World, app: Address) {
    && GoodWorld(world, app) && GoodCalldata(world, app)
    && ClaimsInBlockOrder(world, app) && ClaimsComeLater(world, app)
    && HonestNode(world, app)
  }

  /** Tables and log are in order, and of base-layer inputs the log has `boxes` and then exactly the
      events after `first` up to the cursor. */
  ghost predicate LogInvariant(world: World, app: Address, boxes: seq<nat>, first: nat, s: State) {
    && AppInvariant(world, s.db, app, s.cursor)
    && GoodLog(LedgerOf(s.db, app).log, s.cursor)
    && first <= s.cursor
    && BoxIndices(LedgerOf(s.db, app).log) == boxes + EventsRead(world, app, first, s.cursor)
  }

  /** The claim cursor has passed no claim that is not accepted, the output cursor no execution whose
      output is not marked. */
  ghost predicate CursorsInvariant(world: World, app: Address, s: State) {
    && ClaimCursorSafe(world, s.db, app)
    && s.db.apps[app].lastClaimCheckBlock <= s.cursor
    && OutputCursorComplete(world, s.db, app)
  }

  // ---- the log ----

  lemma QuietKeepsLog(
    world: World, app: Address, boxes: seq<nat>, first: nat, s: State, db: Db)
    requires LogInvariant(world, app, boxes, first, s) && Quiet(s.db, db, app)
    ensures LogInvariant(world, app, boxes, first, s.(db := db))
  {
    hide AppInvariant, GoodLog, BoxIndices, EventsRead, Quiet;
    QuietKeeps(world, s.db, db, app, s.cursor);
    InvariantBasics(world, s.db, app, s.cursor);
    InvariantBasics(world, db, app, s.cursor);
  }

  lemma ReadKeepsLog(world: World, app: Address, boxes: seq<nat>, first: nat, s: State, to: nat)
    requires Environment(world, app) && LogInvariant(world, app, boxes, first, s)
    requires s.cursor < to && world.inputStoreFault(app, to).None?
    ensures LogInvariant(world, app, boxes, first,
                         State(IngestBatch(world, s.db, app, s.cursor + 1, to), to))
  {
    hide AppInvariant, IngestBatch, L1Advance, BoxIndices, EventsRead, LogOrdered, LogUpTo,
      RawIndicesMatch, BoxCalldata, EspressoFits, GoodWorld, ClaimsInBlockOrder, ClaimsComeLater,
      HonestNode;
    InvariantBasics(world, s.db, app, s.cursor);
    IngestRefines(world, s.db, app, s.cursor, to);
    var after := IngestBatch(world, s.db, app, s.cursor + 1, to);
    InvariantBasics(world, after, app, to);
    L1AdvanceKeepsOrder(world, app, LedgerOf(s.db, app), s.cursor, to);
    L1AdvanceRawIndices(world, app, LedgerOf(s.db, app), s.cursor, to);
    L1AdvanceConserves(world, app, LedgerOf(s.db, app), s.cursor, to);
    ChainIsOrdered(world, app);
    EventsReadSplit(world, app, first, s.cursor, to);
  }

  lemma ChainIsOrdered(world: World, app: Address)
    requires GoodWorld(world, app)
    ensures ChainOrdered(world.inputsAdded, app)
  {
  }

  lemma DeliverKeepsLog(
    world: World, app: Address, boxes: seq<nat>, first: nat, s: State, h: nat, i: nat)
    requires Environment(world, app) && LogInvariant(world, app, boxes, first, s)
    requires world.l1FinalizedHeight(h) == s.cursor && i < |world.transactions(h)|
    ensures LogInvariant(world, app, boxes, first, s.(db := DeliverTx(world, s.db, app, h, i)))
  {
    hide AppInvariant, DeliverTx, LedgerDeliver, BoxIndices, EventsRead, LogOrdered, LogUpTo,
      RawIndicesMatch, BoxCalldata, EspressoFits, GoodWorld, ClaimsInBlockOrder, ClaimsComeLater,
      HonestNode, Accepts;
    InvariantBasics(world, s.db, app, s.cursor);
    DeliverRefines(world, s.db, app, h, i);
    var l, after := LedgerOf(s.db, app), DeliverTx(world, s.db, app, h, i);
    InvariantBasics(world, after, app, s.cursor);
    DeliverKeepsOrder(world, app, l, h, i);
    DeliverConserves(world, app, l, h, i);
    DeliverRawIndices(world, app, l, h, i);
  }

  // ---- the claim and output cursors ----

  /** Accepted epochs keep their rows, marked outputs too, and the two cursors stay. */
  ghost predicate CursorsLeftAlone(before: Db, after: Db, app: Address) {
    && app in before.apps && app in after.apps
    && after.apps[app].lastClaimCheckBlock == before.apps[app].lastClaimCheckBlock
    && after.apps[app].lastOutputCheckBlock == before.apps[app].lastOutputCheckBlock
    && (forall key: EpochKey | key.0 == app && key in before.epochs
            && before.epochs[key].status == ClaimAccepted
            && before.epochs[key].lastBlock < before.apps[app].lastClaimCheckBlock ::
          key in after.epochs && after.epochs[key] == before.epochs[key])
    && (forall key: OutputKey | key.0 == app && key in before.outputs ::
          key in after.outputs && after.outputs[key] == before.outputs[key])
  }

  lemma LeftAloneKeepsCursors(world: World, app: Address, s: State, t: State)
    requires ClaimsComeLater(world, app) && CursorsInvariant(world, app, s)
    requires CursorsLeftAlone(s.db, t.db, app) && s.cursor <= t.cursor
    ensures CursorsInvariant(world, app, t)
  {
    LeftAloneClaims(world, app, s.db, t.db);
    LeftAloneOutputs(world, app, s.db, t.db);
  }

  lemma LeftAloneClaims(world: World, app: Address, before: Db, after: Db)
    requires ClaimsComeLater(world, app) && ClaimCursorSafe(world, before, app)
    requires CursorsLeftAlone(before, after, app)
    ensures ClaimCursorSafe(world, after, app)
  {
    hide OutputCursorComplete;
    forall e | e in world.claimAcceptances && e.app == app
        && e.block <= after.apps[app].lastClaimCheckBlock
      ensures AcceptedFor(world, after.epochs, e)
    {
      assert AcceptedFor(world, before.epochs, e);
    }
  }

  lemma LeftAloneOutputs(world: World, app: Address, before: Db, after: Db)
    requires OutputCursorComplete(world, before, app) && CursorsLeftAlone(before, after, app)
    ensures OutputCursorComplete(world, after, app)
  {
    hide ExecutedBy;
    forall e | e in world.outputsExecuted && e.app == app
        && world.inputBoxDeploymentBlock < e.block <= after.apps[app].lastOutputCheckBlock
      ensures Outputs.Marked(world, after.outputs, e)
    {
      assert Outputs.Marked(world, before.outputs, e);
    }
  }

  lemma ReadLeavesCursors(world: World, app: Address, s: State, to: nat)
    requires GoodWorld(world, app) && AppInvariant(world, s.db, app, s.cursor)
    requires s.cursor < to && world.inputStoreFault(app, to).None?
    ensures CursorsLeftAlone(s.db, IngestBatch(world, s.db, app, s.cursor + 1, to), app)
  {
    hide AppInvariant, IngestBatch, L1Advance, GoodWorld, SameElsewhere, LedgerOf;
    InvariantBasics(world, s.db, app, s.cursor);
    IngestRefines(world, s.db, app, s.cursor, to);
    var after := IngestBatch(world, s.db, app, s.cursor + 1, to);
    forall key: EpochKey | key.0 == app && key in s.db.epochs
        && s.db.epochs[key].status == ClaimAccepted
      ensures key in after.epochs && after.epochs[key] == s.db.epochs[key]
    {
      ClosesOnlyWhatHasPassed(world, s.db, app, s.cursor, to, key);
    }
  }

  /** An Espresso input can open an epoch again, but none whose claim has been seen accepted. */
  lemma DeliverLeavesCursors(world: World, app: Address, s: State, h: nat, i: nat)
    requires AppInvariant(world, s.db, app, s.cursor)
    requires world.l1FinalizedHeight(h) == s.cursor && i < |world.transactions(h)|
    requires s.db.apps[app].lastClaimCheckBlock <= s.cursor
    ensures CursorsLeftAlone(s.db, DeliverTx(world, s.db, app, h, i), app)
  {
    hide AppInvariant, DeliverTx, LedgerDeliver, Accepts, SameElsewhere, LedgerOf;
    InvariantBasics(world, s.db, app, s.cursor);
    DeliverRefines(world, s.db, app, h, i);
    DeliverFrame(world, s.db, app, h, i);
    var after := DeliverTx(world, s.db, app, h, i);
    if Accepts(world, app, LedgerOf(s.db, app), h, i) {
      forall key: EpochKey | key.0 == app && key in s.db.epochs
          && s.db.epochs[key].lastBlock < s.db.apps[app].lastClaimCheckBlock
        ensures key in after.epochs && after.epochs[key] == s.db.epochs[key]
      {
        EspressoReopens(world, s.db, app, h, i, key);
      }
    }
  }

  lemma ClaimsKeepCursors(world: World, app: Address, s: State, snapshot: nat, mostRecent: nat)
    requires ClaimsInBlockOrder(world, app) && HonestNode(world, app)
    requires CursorsInvariant(world, app, s)
    requires snapshot <= s.db.apps[app].lastClaimCheckBlock && mostRecent <= s.cursor
    ensures CursorsInvariant(world, app,
                             s.(db := CheckClaims(world, s.db, app, snapshot, mostRecent)))
  {
    hide CheckClaims, ClaimsInBlockOrder, HonestNode;
    CheckClaimsKeepsCursorSafe(world, s.db, app, snapshot, mostRecent);
    ClaimsAreQuiet(world, s.db, app, snapshot, mostRecent);
    ClaimsKeepOutputCursor(world, s.db, app, snapshot, mostRecent);
  }

  lemma ClaimsKeepOutputCursor(world: World, db: Db, app: Address, snapshot: nat, mostRecent: nat)
    requires world.epochLength(app) >= 1 && app in db.apps
    ensures var after := CheckClaims(world, db, app, snapshot, mostRecent);
            app in after.apps
            && after.apps[app].lastOutputCheckBlock == db.apps[app].lastOutputCheckBlock
  {
    hide ClaimPass, ClaimEvents;
    var start := ClaimStart(world, snapshot);
    if mostRecent > start {
      ClaimsAreOfApp(world, app, start + 1, mostRecent);
      PassTouchesOnlyClaims(world, db, app, mostRecent,
                            ClaimEvents(world, app, start + 1, mostRecent), 0);
    }
  }

  lemma OutputsKeepCursors(world: World, app: Address, s: State, snapshot: nat, mostRecent: nat)
    requires CursorsInvariant(world, app, s)
    requires snapshot <= s.db.apps[app].lastOutputCheckBlock
    ensures CursorsInvariant(world, app,
                             s.(db := CheckOutputs(world, s.db, app, snapshot, mostRecent)))
  {
    hide CheckOutputs, AcceptedFor, MarkedThrough, Blocked;
    CheckOutputsKeepsComplete(world, s.db, app, snapshot, mostRecent);
    PassIsAllOrNothing(world, s.db, app, snapshot, mostRecent);
  }

  // ---- every step, and so every run ----

  ghost predicate Invariant(
    world: World, app: Address, boxes: seq<nat>, first: nat, s: State)
  {
    LogInvariant(world, app, boxes, first, s) && CursorsInvariant(world, app, s)
  }

  lemma StepKeepsLog(
    world: World, app: Address, boxes: seq<nat>, first: nat, s: State, a: Action)
    requires Environment(world, app) && LogInvariant(world, app, boxes, first, s)
    requires Enabled(world, app, s, a)
    ensures LogInvariant(world, app, boxes, first, Next(world, app, s, a))
  {
    hide Environment, LogInvariant, IngestBatch, DeliverTx, CheckClaims, CheckOutputs, Quiet;
    match a {
      case ReadBaseLayer(to) => ReadKeepsLog(world, app, boxes, first, s, to);
      case DeliverTransaction(h, i) => DeliverKeepsLog(world, app, boxes, first, s, h, i);
      case CheckClaimsFrom(snapshot, mostRecent) =>
        ClaimsAreQuiet(world, s.db, app, snapshot, mostRecent);
        QuietKeepsLog(world, app, boxes, first, s,
                      CheckClaims(world, s.db, app, snapshot, mostRecent));
      case CheckOutputsFrom(snapshot, mostRecent) =>
        OutputsAreQuiet(world, s.db, app, snapshot, mostRecent);
        QuietKeepsLog(world, app, boxes, first, s,
                      CheckOutputs(world, s.db, app, snapshot, mostRecent));
      case SomeoneElse(db) => QuietKeepsLog(world, app, boxes, first, s, db);
    }
  }

  lemma StepKeepsCursors(
    world: World, app: Address, boxes: seq<nat>, first: nat, s: State, a: Action)
    requires Environment(world, app) && Invariant(world, app, boxes, first, s)
    requires Enabled(world, app, s, a)
    ensures CursorsInvariant(world, app, Next(world, app, s, a))
  {
    hide AppInvariant, GoodLog, BoxIndices, EventsRead, ClaimCursorSafe, OutputCursorComplete,
      ClaimsInBlockOrder, ClaimsComeLater, HonestNode, GoodCalldata, GoodWorld, IngestBatch, DeliverTx,
      CheckClaims, CheckOutputs, LedgerOf, CursorsLeftAlone, Outside, Counter;
    match a {
      case ReadBaseLayer(to) =>
        ReadLeavesCursors(world, app, s, to);
        LeftAloneKeepsCursors(world, app, s, Next(world, app, s, a));
      case DeliverTransaction(h, i) =>
        DeliverLeavesCursors(world, app, s, h, i);
        LeftAloneKeepsCursors(world, app, s, Next(world, app, s, a));
      case CheckClaimsFrom(snapshot, mostRecent) =>
        ClaimsKeepCursors(world, app, s, snapshot, mostRecent);
      case CheckOutputsFrom(snapshot, mostRecent) =>
        OutputsKeepCursors(world, app, s, snapshot, mostRecent);
      case SomeoneElse(db) =>
        OutsideLeavesCursors(s.db, db, app);
        LeftAloneKeepsCursors(world, app, s, Next(world, app, s, a));
    }
  }

  lemma OutsideLeavesCursors(before: Db, after: Db, app: Address)
    requires Outside(before, after, app)
    ensures CursorsLeftAlone(before, after, app)
  {
  }

  /** The same chains and configuration, but other database statements fail. */
  ghost predicate SameButFaults(a: World, b: World) {
    b == a.(inputStoreFault := b.inputStoreFault, espressoStoreFault := b.espressoStoreFault,
            claimUpdateFails := b.claimUpdateFails, outputUpdateFails := b.outputUpdateFails)
  }

  lemma FaultsDoNotMatter(
    a: World, b: World, app: Address, boxes: seq<nat>, first: nat, s: State)
    requires SameButFaults(a, b)
    ensures Environment(a, app) <==> Environment(b, app)
    ensures Invariant(a, app, boxes, first, s) <==> Invariant(b, app, boxes, first, s)
  {
    hide Dense, Linked, GoodLog, BoxIndices, LedgerOf, ExecutedBy;
  }

  /** The state after some actions, each taken in a state where it is enabled. Which statements fail may
      be different for each action. */
  ghost predicate Runs(
    world: World, app: Address, states: seq<State>, actions: seq<Action>, worlds: seq<World>)
  {
    && |states| == |actions| + 1 && |worlds| == |actions|
    && (forall k | 0 <= k < |actions| :: SameButFaults(world, worlds[k]))
    && (forall k | 0 <= k < |actions| :: Enabled(worlds[k], app, states[k], actions[k]))
    && (forall k | 0 <= k < |actions| ::
          states[k + 1] == Next(worlds[k], app, states[k], actions[k]))
  }

  /** In every state of every run: the stored indices are 0 .. n-1 and the counter is n; inputs are
      numbered by block with the base layer first; the base-layer inputs in the log are the events up
      to the cursor, each once; every calldata names its row's index; every epoch from the horizon on
      is open; the claim cursor is safe and the output cursor complete. */
  lemma {:induction false} InvariantAlwaysHolds(
    world: World, app: Address, boxes: seq<nat>, first: nat, states: seq<State>,
    actions: seq<Action>, worlds: seq<World>, k: nat)
    requires Environment(world, app) && Runs(world, app, states, actions, worlds) && k < |states|
    requires Invariant(world, app, boxes, first, states[0])
    ensures Invariant(world, app, boxes, first, states[k])
  {
    hide Environment, Invariant, Enabled, SameButFaults;
    if k > 0 {
      InvariantAlwaysHolds(world, app, boxes, first, states, actions, worlds, k - 1);
      FaultsDoNotMatter(world, worlds[k - 1], app, boxes, first, states[k - 1]);
      StepKeepsInvariant(worlds[k - 1], app, boxes, first, states[k - 1], actions[k - 1]);
      FaultsDoNotMatter(world, worlds[k - 1], app, boxes, first, states[k]);
    }
  }

  lemma StepKeepsInvariant(
    world: World, app: Address, boxes: seq<nat>, first: nat, s: State, a: Action)
    requires Environment(world, app) && Invariant(world, app, boxes, first, s)
    requires Enabled(world, app, s, a)
    ensures Invariant(world, app, boxes, first, Next(world, app, s, a))
  {
    hide Environment, LogInvariant, CursorsInvariant, Enabled;
    StepKeepsLog(world, app, boxes, first, s, a);
    StepKeepsCursors(world, app, boxes, first, s, a);
  }

  /** An application that has just been registered starts with the invariant. */
  lemma FreshStateIsGood(world: World, app: Address, db: Db, cursor: nat)
    requires Environment(world, app)
    requires app in db.apps && db.apps[app] == AppRow(0, 0, 0)
    requires app !in db.counters
    requires forall key | key in db.epochs :: key.0 != app
    requires forall key | key in db.inputs :: key.0 != app
    ensures Invariant(world, app, [], cursor, State(db, cursor))
  {
    hide GoodCalldata, ClaimsInBlockOrder, HonestNode, InputsIn, ExecutedBy;
    NothingRead(world, app, cursor);
    assert LedgerOf(db, app).log == [];
  }
}
