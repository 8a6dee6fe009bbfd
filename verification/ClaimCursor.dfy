/** The claim cursor (internal/evmreader/claim.go).

    A pass moves the cursor to the block of the last event that got its claim accepted, and the next
    pass does not look at events up to the cursor again. So the cursor must not pass an event whose
    claim is not accepted. Whether a pass keeps to that depends on the events it goes through. */
module ClaimCursor {
  import opened Model
  import opened EpochMath
  import opened Tables
  import opened World
  import opened Ledger
  import opened Claims
  import Sorting

  predicate AcceptedFor(world: World, epochs: map<EpochKey, EpochRow>, e: ClaimAcceptance)
    requires world.epochLength(e.app) >= 1
  {
    var key := ClaimKey(world, e);
    && key in epochs && epochs[key].status == ClaimAccepted
    && epochs[key].claimHash == Some(e.claim) && epochs[key].lastBlock == e.lastBlock
  }

  /** Each of the events up to the claim cursor has its epoch accepted. */
  ghost predicate SafeOver(world: World, db: Db, app: Address, events: seq<ClaimAcceptance>)
    requires OfOneApp(world, app, events)
  {
    && app in db.apps
    && forall j | 0 <= j < |events| && events[j].block <= db.apps[app].lastClaimCheckBlock ::
         AcceptedFor(world, db.epochs, events[j])
  }

  predicate SameClaim(a: ClaimAcceptance, b: ClaimAcceptance) {
    a.lastBlock == b.lastBlock && a.claim == b.claim
  }

  /** Of the first `n` events those about one epoch accept the same claim. */
  ghost predicate Agree(world: World, app: Address, events: seq<ClaimAcceptance>, n: nat)
    requires OfOneApp(world, app, events) && n <= |events|
  {
    forall i, j | 0 <= i < n && 0 <= j < n && ClaimKey(world, events[i]) == ClaimKey(world, events[j]) ::
      SameClaim(events[i], events[j])
  }

  /** The first `n` claims are each about a whole epoch: up to the last block of one. */
  ghost predicate WholeEpochs(world: World, app: Address, events: seq<ClaimAcceptance>, n: nat)
    requires OfOneApp(world, app, events) && n <= |events|
  {
    forall i | 0 <= i < n ::
      events[i].lastBlock == LastBlock(world.epochLength(app), ClaimKey(world, events[i]).1)
  }

  /** There are tables for which event `i` moves the cursor: its update goes through, no earlier one for
      its epoch does, and the events so far are about whole epochs and do not contradict each other. */
  ghost predicate CanMoveCursor(
    world: World, app: Address, mostRecent: nat, events: seq<ClaimAcceptance>, i: nat)
    requires OfOneApp(world, app, events) && i < |events|
  {
    && !world.claimUpdateFails(app, mostRecent, i)
    && ClaimKey(world, events[i]) !in ClaimKeys(world, app, mostRecent, events, i)
    && Agree(world, app, events, i + 1)
    && WholeEpochs(world, app, events, i + 1)
  }

  /** After event `i` come only events of later blocks, or the same claim. */
  ghost predicate NothingToPass(world: World, app: Address, events: seq<ClaimAcceptance>, i: nat)
    requires OfOneApp(world, app, events) && i < |events|
  {
    forall j | i < j < |events| && events[j].block <= events[i].block ::
      SameClaim(events[i], events[j])
  }

  /** So it is after every event that can move the cursor. */
  ghost predicate SafeToFollow(
    world: World, app: Address, mostRecent: nat, events: seq<ClaimAcceptance>)
    requires OfOneApp(world, app, events)
  {
    forall i | 0 <= i < |events| && CanMoveCursor(world, app, mostRecent, events, i) ::
      NothingToPass(world, app, events, i)
  }

  // ---- such events keep the cursor safe ----

  /** The event the cursor has been moved to, if it has been moved. */
  lemma {:induction false} LastNewly(
    world: World, db: Db, app: Address, mostRecent: nat, events: seq<ClaimAcceptance>, k: nat)
    returns (i: Option<nat>)
    requires OfOneApp(world, app, events) && k <= |events| && app in db.apps
    ensures match i
            case None => CursorAfter(world, db, app, mostRecent, events, k)
                      == db.apps[app].lastClaimCheckBlock
            case Some(n) =>
              && n < k && Newly(world, db, app, mostRecent, events, n)
              && CursorAfter(world, db, app, mostRecent, events, k) == events[n].block
  {
    hide Newly;
    i := None;
    if k > 0 {
      if Newly(world, db, app, mostRecent, events, k - 1) {
        i := Some(k - 1);
      } else {
        i := LastNewly(world, db, app, mostRecent, events, k - 1);
      }
    }
  }

  lemma NewlyMovesCursor(
    world: World, db: Db, app: Address, mostRecent: nat, events: seq<ClaimAcceptance>, i: nat, k: nat)
    requires OfOneApp(world, app, events) && i < k <= |events|
    requires AllGood(world, db.epochs, app, mostRecent, events, k)
    requires Newly(world, db, app, mostRecent, events, i) && CanonicalWindows(world, db, app)
    ensures CanMoveCursor(world, app, mostRecent, events, i)
  {
    hide ClaimKey, EarlierSettled, ClaimKeys, LastBlock, FirstBlock;
    forall a | 0 <= a < i + 1
      ensures events[a].lastBlock == LastBlock(world.epochLength(app), ClaimKey(world, events[a]).1)
    {
      assert Good(world, db.epochs, app, mostRecent, events, a);
      OwnApp(world, events[a]);
    }
    forall a, b | 0 <= a < i + 1 && 0 <= b < i + 1
        && ClaimKey(world, events[a]) == ClaimKey(world, events[b])
      ensures SameClaim(events[a], events[b])
    {
      assert Good(world, db.epochs, app, mostRecent, events, a);
      assert Good(world, db.epochs, app, mostRecent, events, b);
    }
  }

  lemma SettledForIts(
    world: World, epochs: map<EpochKey, EpochRow>, keys: set<EpochKey>, e: ClaimAcceptance)
    requires world.epochLength(e.app) >= 1
    ensures AcceptedFor(world, epochs, e) ==> AcceptedFor(world, Settle(epochs, keys), e)
    ensures Matches(world, epochs, e) && ClaimKey(world, e) in keys ==>
              AcceptedFor(world, Settle(epochs, keys), e)
    ensures Matches(world, epochs, e) && epochs[ClaimKey(world, e)].status == ClaimAccepted ==>
              AcceptedFor(world, Settle(epochs, keys), e)
  {
    hide ClaimKey;
  }

  /** An epoch of an event is known by the last block of its claim. */
  lemma KeyOfLastBlock(world: World, a: ClaimAcceptance, b: ClaimAcceptance)
    requires world.epochLength(a.app) >= 1 && a.app == b.app
    ensures a.lastBlock == b.lastBlock ==> ClaimKey(world, a) == ClaimKey(world, b)
    ensures ClaimKey(world, a).0 == a.app
  {
  }

  /** Once event `i` has moved the cursor, every event up to its block has its claim accepted. */
  lemma CoveredByMove(
    world: World, db: Db, app: Address, mostRecent: nat, events: seq<ClaimAcceptance>, k: nat, i: nat,
    j: nat)
    requires OfOneApp(world, app, events) && Sorting.SortedBy(LastBlockKey, events)
    requires i < k <= |events| && AllGood(world, db.epochs, app, mostRecent, events, k)
    requires Newly(world, db, app, mostRecent, events, i) && NothingToPass(world, app, events, i)
    requires j < |events| && events[j].block <= events[i].block
    ensures AcceptedFor(world,
              Settle(db.epochs, ClaimKeys(world, app, mostRecent, events, k)), events[j])
  {
    hide ClaimKey, Settle, AcceptedFor, AllGood;
    var keys := ClaimKeys(world, app, mostRecent, events, k);
    GoodAt(world, db.epochs, app, mostRecent, events, k, i);
    assert ClaimKey(world, events[i]) in keys;
    KeyOfLastBlock(world, events[i], events[j]);
    KeyOfLastBlock(world, events[j], events[i]);
    SettledForIts(world, db.epochs, keys, events[j]);
    if j < i {
      GoodAt(world, db.epochs, app, mostRecent, events, k, j);
      assert LastBlockKey(events[j]) <= LastBlockKey(events[i]);
      assert ClaimKeys(world, app, mostRecent, events, i) <= keys;
    }
  }

  lemma GoodAt(
    world: World, epochs: map<EpochKey, EpochRow>, app: Address, mostRecent: nat,
    events: seq<ClaimAcceptance>, k: nat, i: nat)
    requires OfOneApp(world, app, events) && i < k <= |events|
    requires AllGood(world, epochs, app, mostRecent, events, k)
    ensures Good(world, epochs, app, mostRecent, events, i)
  {
  }

  lemma PassStaysSafe(
    world: World, db: Db, app: Address, mostRecent: nat, events: seq<ClaimAcceptance>)
    requires OfOneApp(world, app, events) && Sorting.SortedBy(LastBlockKey, events)
    requires SafeOver(world, db, app, events)
    requires forall i | 0 <= i < |events| && Newly(world, db, app, mostRecent, events, i)
               && AllGood(world, db.epochs, app, mostRecent, events, i + 1) ::
                 NothingToPass(world, app, events, i)
    ensures SafeOver(world, ClaimPass(world, db, app, mostRecent, events, 0), app, events)
  {
    hide ClaimPass, Good, Newly, ClaimKeys, CursorAfter, Settle, AcceptedFor, NothingToPass,
      Sorting.SortedBy;
    var k := LongestPrefixFrom(world, db.epochs, app, mostRecent, events, 0);
    var after := ClaimPass(world, db, app, mostRecent, events, 0);
    PassAcceptsLongestGoodPrefix(world, db, app, mostRecent, events, k);
    var last := LastNewly(world, db, app, mostRecent, events, k);
    forall j | 0 <= j < |events| && events[j].block <= after.apps[app].lastClaimCheckBlock
      ensures AcceptedFor(world, after.epochs, events[j])
    {
      SettledForIts(world, db.epochs, ClaimKeys(world, app, mostRecent, events, k), events[j]);
      match last {
        case None =>
        case Some(i) => CoveredByMove(world, db, app, mostRecent, events, k, i, j);
      }
    }
  }

  // ---- and no others do ----

  /** The epoch of an event as it is stored, with the event's claim. */
  function EpochOf(world: World, app: Address, e: ClaimAcceptance, status: EpochStatus): EpochRow
    requires world.epochLength(e.app) >= 1
  {
    EpochRow(FirstBlock(world.epochLength(app), ClaimKey(world, e).1), e.lastBlock, Some(e.claim), status)
  }

  /** Epochs for the first `n` events, with their claims, accepted. */
  function BelievedEpochs(world: World, app: Address, events: seq<ClaimAcceptance>, n: nat)
    : map<EpochKey, EpochRow>
    requires OfOneApp(world, app, events) && n <= |events|
  {
    if n == 0 then map[]
    else
      var e := events[n - 1];
      BelievedEpochs(world, app, events, n - 1)
        [ClaimKey(world, e) := EpochOf(world, app, e, ClaimAccepted)]
  }

  /** Tables in which the epoch of event `i` is submitted and those of the events before accepted. */
  function Believed(world: World, app: Address, events: seq<ClaimAcceptance>, i: nat): Db
    requires OfOneApp(world, app, events) && i < |events|
  {
    Db(map[app := AppRow(0, 0, 0)],
       BelievedEpochs(world, app, events, i)
         [ClaimKey(world, events[i]) := EpochOf(world, app, events[i], ClaimSubmitted)],
       map[], map[], map[], map[], map[])
  }

  /** Each of these epochs is that of an event, and has the event's claim. */
  lemma {:induction false} BelievedRows(
    world: World, app: Address, events: seq<ClaimAcceptance>, n: nat)
    requires OfOneApp(world, app, events) && n <= |events| && Agree(world, app, events, n)
    ensures var epochs := BelievedEpochs(world, app, events, n);
            && (forall m | 0 <= m < n :: AcceptedFor(world, epochs, events[m]))
            && (forall key: EpochKey | key in epochs ::
                  exists m :: 0 <= m < n && key == ClaimKey(world, events[m]))
  {
    hide ClaimKey;
    if n > 0 {
      BelievedRows(world, app, events, n - 1);
    }
  }

  lemma {:induction false} BelievedStatus(
    world: World, app: Address, events: seq<ClaimAcceptance>, n: nat, key: EpochKey)
    requires OfOneApp(world, app, events) && n <= |events|
    ensures var epochs := BelievedEpochs(world, app, events, n);
            key in epochs ==> epochs[key].status == ClaimAccepted
  {
    hide ClaimKey;
    if n > 0 {
      BelievedStatus(world, app, events, n - 1, key);
    }
  }

  lemma BelievedIsGood(
    world: World, app: Address, mostRecent: nat, events: seq<ClaimAcceptance>, i: nat)
    requires OfOneApp(world, app, events) && Sorting.SortedBy(LastBlockKey, events) && i < |events|
    requires Agree(world, app, events, i + 1)
    ensures AllGood(world, Believed(world, app, events, i).epochs, app, mostRecent, events, i + 1)
  {
    hide ClaimKey, ClaimKeys, BelievedEpochs, Agree;
    var epochs := Believed(world, app, events, i).epochs;
    AgreeBefore(world, app, events, i);
    BelievedRows(world, app, events, i);
    forall key: EpochKey ensures key in epochs && key != ClaimKey(world, events[i]) ==>
        epochs[key].status == ClaimAccepted {
      BelievedStatus(world, app, events, i, key);
    }
    forall m | 0 <= m < i + 1 ensures Good(world, epochs, app, mostRecent, events, m) {
      assert LastBlockKey(events[m]) <= LastBlockKey(events[i]);
      AgreeOn(world, app, events, i + 1, m, i);
    }
  }

  lemma AgreeBefore(world: World, app: Address, events: seq<ClaimAcceptance>, i: nat)
    requires OfOneApp(world, app, events) && i < |events| && Agree(world, app, events, i + 1)
    ensures Agree(world, app, events, i)
  {
  }

  lemma AgreeOn(world: World, app: Address, events: seq<ClaimAcceptance>, n: nat, i: nat, j: nat)
    requires OfOneApp(world, app, events) && i < n && j < n && n <= |events|
    requires Agree(world, app, events, n)
    ensures ClaimKey(world, events[i]) == ClaimKey(world, events[j]) ==>
              SameClaim(events[i], events[j])
  {
  }

  /** On these tables the pass ends with the cursor at event `i`. */
  lemma {:induction false} BelievedCursor(
    world: World, app: Address, mostRecent: nat, events: seq<ClaimAcceptance>, i: nat, k: nat)
    requires OfOneApp(world, app, events) && i < k <= |events|
    requires CanMoveCursor(world, app, mostRecent, events, i)
    ensures CursorAfter(world, Believed(world, app, events, i), app, mostRecent, events, k)
         == events[i].block
  {
    hide ClaimKey, BelievedEpochs, Agree;
    AgreeBefore(world, app, events, i);
    BelievedRows(world, app, events, i);
    if k > i + 1 {
      BelievedCursor(world, app, mostRecent, events, i, k - 1);
      assert ClaimKey(world, events[i]) in ClaimKeys(world, app, mostRecent, events, k - 1);
      BelievedStatus(world, app, events, i, ClaimKey(world, events[k - 1]));
    } else {
      assert Newly(world, Believed(world, app, events, i), app, mostRecent, events, i);
    }
  }

  /** The epochs of these tables are those of the events up to `i`, with their claims. */
  lemma BelievedOnly(
    world: World, app: Address, events: seq<ClaimAcceptance>, i: nat, j: nat, keys: set<EpochKey>)
    requires OfOneApp(world, app, events) && Sorting.SortedBy(LastBlockKey, events)
    requires i < j < |events| && Agree(world, app, events, i + 1)
    requires AcceptedFor(world, Settle(Believed(world, app, events, i).epochs, keys), events[j])
    ensures SameClaim(events[i], events[j])
  {
    hide ClaimKey, BelievedEpochs, Agree;
    AgreeBefore(world, app, events, i);
    BelievedRows(world, app, events, i);
    var key := ClaimKey(world, events[j]);
    if key != ClaimKey(world, events[i]) {
      var m :| 0 <= m < i && key == ClaimKey(world, events[m]);
      assert LastBlockKey(events[m]) <= LastBlockKey(events[i]) <= LastBlockKey(events[j]);
      assert AcceptedFor(world, BelievedEpochs(world, app, events, i), events[m]);
      KeyOfLastBlock(world, events[i], events[j]);
    }
  }

  /** They are in order up to a block by which all the claimed epochs have ended. */
  lemma BelievedIsInvariant(
    world: World, app: Address, events: seq<ClaimAcceptance>, i: nat, cursor: nat)
    requires OfOneApp(world, app, events) && i < |events| && WholeEpochs(world, app, events, i + 1)
    requires Agree(world, app, events, i + 1)
    requires forall e | e in events :: e.lastBlock <= cursor
    ensures AppInvariant(world, Believed(world, app, events, i), app, cursor)
  {
    hide ClaimKey, BelievedEpochs, Agree, CalculateEpochIndex, FirstBlock, LastBlock;
    var db := Believed(world, app, events, i);
    AgreeBefore(world, app, events, i);
    BelievedRows(world, app, events, i);
    forall key: EpochKey | key in db.epochs
      ensures db.epochs[key].firstBlock == FirstBlock(world.epochLength(app), key.1)
      ensures db.epochs[key].lastBlock == LastBlock(world.epochLength(app), key.1)
      ensures key.1 < CalculateEpochIndex(world.epochLength(app), cursor + 1)
    {
      BelievedRow(world, app, events, i, key);
      var m :| 0 <= m <= i && db.epochs[key].lastBlock == events[m].lastBlock;
      assert events[m] in events;
      EndedEpoch(world.epochLength(app), key.1, cursor);
    }
  }

  lemma EndedEpoch(epochLength: nat, index: nat, cursor: nat)
    requires epochLength >= 1 && LastBlock(epochLength, index) <= cursor
    ensures index < CalculateEpochIndex(epochLength, cursor + 1)
  {
    WindowEndsBefore(epochLength, index, cursor + 1);
  }

  lemma BelievedRow(world: World, app: Address, events: seq<ClaimAcceptance>, i: nat, key: EpochKey)
    requires OfOneApp(world, app, events) && i < |events|
    requires WholeEpochs(world, app, events, i + 1) && Agree(world, app, events, i)
    requires key in Believed(world, app, events, i).epochs
    ensures var row := Believed(world, app, events, i).epochs[key];
            && row.firstBlock == FirstBlock(world.epochLength(app), key.1)
            && row.lastBlock == LastBlock(world.epochLength(app), key.1)
            && exists m :: 0 <= m <= i && row.lastBlock == events[m].lastBlock
  {
    hide ClaimKey, Agree, FirstBlock, LastBlock;
    BelievedFrom(world, app, events, i, key);
  }

  /** Each of the epochs before is that of one of the events. */
  lemma {:induction false} BelievedFrom(
    world: World, app: Address, events: seq<ClaimAcceptance>, n: nat, key: EpochKey)
    requires OfOneApp(world, app, events) && n <= |events|
    ensures key in BelievedEpochs(world, app, events, n) ==>
              exists m :: 0 <= m < n && key == ClaimKey(world, events[m])
                && BelievedEpochs(world, app, events, n)[key]
                     == EpochOf(world, app, events[m], ClaimAccepted)
  {
    hide ClaimKey, EpochOf;
    if n > 0 {
      BelievedFrom(world, app, events, n - 1, key);
    }
  }

  lemma UnsafeToFollow(
    world: World, app: Address, mostRecent: nat, events: seq<ClaimAcceptance>, i: nat, j: nat)
    requires OfOneApp(world, app, events) && Sorting.SortedBy(LastBlockKey, events)
    requires forall e | e in events :: e.block >= 1
    requires i < j < |events| && CanMoveCursor(world, app, mostRecent, events, i)
    requires events[j].block <= events[i].block && !SameClaim(events[i], events[j])
    ensures var db := Believed(world, app, events, i);
            && SafeOver(world, db, app, events)
            && !SafeOver(world, ClaimPass(world, db, app, mostRecent, events, 0), app, events)
  {
    hide ClaimPass, Good, ClaimKeys, CursorAfter, Settle, AcceptedFor, BelievedEpochs, Agree,
      Sorting.SortedBy;
    var db := Believed(world, app, events, i);
    forall m | 0 <= m < |events| ensures events[m].block >= 1 {
      assert events[m] in events;
    }
    BelievedIsGood(world, app, mostRecent, events, i);
    var k := LongestPrefixFrom(world, db.epochs, app, mostRecent, events, i + 1);
    var after := ClaimPass(world, db, app, mostRecent, events, 0);
    PassAcceptsLongestGoodPrefix(world, db, app, mostRecent, events, k);
    BelievedCursor(world, app, mostRecent, events, i, k);
    if AcceptedFor(world, after.epochs, events[j]) {
      BelievedOnly(world, app, events, i, j, ClaimKeys(world, app, mostRecent, events, k));
    }
  }

  /** Tables in order up to block `cursor`, and so far no event passed that is not accepted. */
  ghost predicate SafeTables(
    world: World, db: Db, app: Address, cursor: nat, events: seq<ClaimAcceptance>)
    requires OfOneApp(world, app, events)
  {
    AppInvariant(world, db, app, cursor) && SafeOver(world, db, app, events)
  }

  /** From all tables that keep the invariant a pass keeps the claim cursor safe, if and only if an event
      that can move the cursor is followed only by events of later blocks or the same claim. */
  lemma CursorSafeExactly(
    world: World, app: Address, mostRecent: nat, events: seq<ClaimAcceptance>, cursor: nat)
    requires OfOneApp(world, app, events) && Sorting.SortedBy(LastBlockKey, events)
    requires forall e | e in events :: e.block >= 1 && e.lastBlock <= cursor
    ensures SafeToFollow(world, app, mostRecent, events) <==>
            forall db: Db | SafeTables(world, db, app, cursor, events) ::
              SafeOver(world, ClaimPass(world, db, app, mostRecent, events, 0), app, events)
  {
    hide SafeOver, CanMoveCursor, ClaimPass, SameClaim, Sorting.SortedBy, AppInvariant;
    if SafeToFollow(world, app, mostRecent, events) {
      forall db: Db | SafeTables(world, db, app, cursor, events)
        ensures SafeOver(world, ClaimPass(world, db, app, mostRecent, events, 0), app, events)
      {
        SafeFromThese(world, db, app, mostRecent, events, cursor);
      }
    } else {
      var i :| 0 <= i < |events| && CanMoveCursor(world, app, mostRecent, events, i)
        && !NothingToPass(world, app, events, i);
      var j :| i < j < |events| && events[j].block <= events[i].block
        && !SameClaim(events[i], events[j]);
      UnsafeToFollow(world, app, mostRecent, events, i, j);
      MoversAreWhole(world, app, mostRecent, events, i);
      BelievedIsInvariant(world, app, events, i, cursor);
      assert SafeTables(world, Believed(world, app, events, i), app, cursor, events);
    }
  }

  lemma MoversAreWhole(
    world: World, app: Address, mostRecent: nat, events: seq<ClaimAcceptance>, i: nat)
    requires OfOneApp(world, app, events) && i < |events|
    requires CanMoveCursor(world, app, mostRecent, events, i)
    ensures WholeEpochs(world, app, events, i + 1) && Agree(world, app, events, i + 1)
  {
  }

  lemma SafeFromThese(
    world: World, db: Db, app: Address, mostRecent: nat, events: seq<ClaimAcceptance>, cursor: nat)
    requires OfOneApp(world, app, events) && Sorting.SortedBy(LastBlockKey, events)
    requires SafeToFollow(world, app, mostRecent, events)
    requires SafeTables(world, db, app, cursor, events)
    ensures SafeOver(world, ClaimPass(world, db, app, mostRecent, events, 0), app, events)
  {
    hide SafeOver, CanMoveCursor, ClaimPass, NothingToPass, Sorting.SortedBy, Newly, AllGood, Dense,
      CanonicalWindows, Horizon, Linked;
    forall i | 0 <= i < |events| && Newly(world, db, app, mostRecent, events, i)
        && AllGood(world, db.epochs, app, mostRecent, events, i + 1)
      ensures NothingToPass(world, app, events, i)
    {
      NewlyMovesCursor(world, db, app, mostRecent, events, i, i + 1);
    }
    PassStaysSafe(world, db, app, mostRecent, events);
  }

  // ---- the chain ----

  /** Every acceptance event up to the claim cursor has its epoch accepted. */
  ghost predicate ClaimCursorSafe(world: World, db: Db, app: Address) {
    && world.epochLength(app) >= 1 && app in db.apps
    && forall e | e in world.claimAcceptances && e.app == app
           && e.block <= db.apps[app].lastClaimCheckBlock ::
         AcceptedFor(world, db.epochs, e)
  }

  /** The node leaves out no acceptance and makes up none, in whatever order it answers a query. */
  ghost predicate HonestNode(world: World, app: Address) {
    forall startBlock: nat, endBlock: nat ::
      multiset(world.claimOrder(app, startBlock, endBlock)) == multiset(world.claimAcceptances)
  }

  /** No claim is accepted before the InputBox was deployed, and none in the block of an earlier claim,
      or before it, unless it is that claim again. */
  ghost predicate ClaimsInBlockOrder(world: World, app: Address) {
    && (forall e | e in world.claimAcceptances && e.app == app ::
          e.block >= world.inputBoxDeploymentBlock)
    && (forall e, f | e in world.claimAcceptances && f in world.claimAcceptances
            && e.app == app && f.app == app && e.lastBlock <= f.lastBlock && f.block <= e.block ::
          SameClaim(e, f))
  }

  lemma AnswerIsChain(world: World, app: Address, startBlock: nat, endBlock: nat)
    requires world.epochLength(app) >= 1 && HonestNode(world, app)
    ensures var events := ClaimEvents(world, app, startBlock, endBlock);
            && OfOneApp(world, app, events)
            && Sorting.SortedBy(LastBlockKey, events)
            && (forall x :: x in events <==>
                  x in world.claimAcceptances && x.app == app && startBlock <= x.block <= endBlock)
  {
    hide ClaimEvents;
    ClaimsAreOfApp(world, app, startBlock, endBlock);
    var order := world.claimOrder(app, startBlock, endBlock);
    forall x ensures x in order <==> x in world.claimAcceptances {
      assert x in order <==> x in multiset(order);
      assert x in world.claimAcceptances <==> x in multiset(world.claimAcceptances);
    }
  }

  lemma BlockOrderIsSafe(world: World, app: Address, events: seq<ClaimAcceptance>)
    requires ClaimsInBlockOrder(world, app) && OfOneApp(world, app, events)
    requires Sorting.SortedBy(LastBlockKey, events)
    requires forall x | x in events :: x in world.claimAcceptances && x.app == app
    ensures forall i | 0 <= i < |events| :: NothingToPass(world, app, events, i)
  {
    hide SameClaim;
    forall i, j | 0 <= i < j < |events| && events[j].block <= events[i].block
      ensures SameClaim(events[i], events[j])
    {
      assert LastBlockKey(events[i]) <= LastBlockKey(events[j]);
      assert events[i] in events && events[j] in events;
    }
  }

  /** An event that moves the cursor moves it forward, to one of the blocks of the pass. */
  lemma CursorMovesForward(
    world: World, db: Db, app: Address, mostRecent: nat, events: seq<ClaimAcceptance>, top: nat)
    requires OfOneApp(world, app, events) && SafeOver(world, db, app, events)
    requires forall x | x in events :: x.block <= top
    ensures var after := ClaimPass(world, db, app, mostRecent, events, 0);
            && app in after.apps
            && db.apps[app].lastClaimCheckBlock <= after.apps[app].lastClaimCheckBlock
            && (|| after.apps[app].lastClaimCheckBlock == db.apps[app].lastClaimCheckBlock
                || after.apps[app].lastClaimCheckBlock <= top)
            && (forall e: ClaimAcceptance | e.app == app && AcceptedFor(world, db.epochs, e) ::
                  AcceptedFor(world, after.epochs, e))
  {
    hide ClaimPass, Good, ClaimKeys, CursorAfter, Settle;
    var k := LongestPrefixFrom(world, db.epochs, app, mostRecent, events, 0);
    PassAcceptsLongestGoodPrefix(world, db, app, mostRecent, events, k);
    var last := LastNewly(world, db, app, mostRecent, events, k);
    if last.Some? {
      assert events[last.value] in events;
      assert !AcceptedFor(world, db.epochs, events[last.value]);
    }
    forall e: ClaimAcceptance | e.app == app && AcceptedFor(world, db.epochs, e)
      ensures AcceptedFor(
        world, Settle(db.epochs, ClaimKeys(world, app, mostRecent, events, k)), e)
    {
      SettledForIts(world, db.epochs, ClaimKeys(world, app, mostRecent, events, k), e);
    }
  }

  /** Whichever updates fail, and however stale the snapshot the pass starts from, the claim cursor
      stays behind the first acceptance event whose claim is not accepted. */
  lemma CheckClaimsKeepsCursorSafe(
    world: World, db: Db, app: Address, lastClaimCheck: nat, mostRecent: nat)
    requires ClaimCursorSafe(world, db, app)
    requires ClaimsInBlockOrder(world, app) && HonestNode(world, app)
    requires lastClaimCheck <= db.apps[app].lastClaimCheckBlock
    ensures var after := CheckClaims(world, db, app, lastClaimCheck, mostRecent);
            && ClaimCursorSafe(world, after, app)
            && db.apps[app].lastClaimCheckBlock <= after.apps[app].lastClaimCheckBlock
            && (|| after.apps[app].lastClaimCheckBlock == db.apps[app].lastClaimCheckBlock
                || after.apps[app].lastClaimCheckBlock <= mostRecent)
  {
    hide AcceptedFor, ClaimEvents, ClaimPass, NothingToPass, HonestNode, Sorting.SortedBy, SameClaim;
    var start := ClaimStart(world, lastClaimCheck);
    if mostRecent > start {
      var events := ClaimEvents(world, app, start + 1, mostRecent);
      var after := CheckClaims(world, db, app, lastClaimCheck, mostRecent);
      AnswerIsChain(world, app, start + 1, mostRecent);
      forall j | 0 <= j < |events|
        ensures events[j] in world.claimAcceptances && events[j].app == app
      {
        assert events[j] in events;
      }
      BlockOrderIsSafe(world, app, events);
      PassStaysSafe(world, db, app, mostRecent, events);
      CursorMovesForward(world, db, app, mostRecent, events, mostRecent);
      forall e | e in world.claimAcceptances && e.app == app
          && e.block <= after.apps[app].lastClaimCheckBlock
        ensures AcceptedFor(world, after.epochs, e)
      {
        if e.block > db.apps[app].lastClaimCheckBlock {
          assert e in events;
          var j :| 0 <= j < |events| && events[j] == e;
        }
      }
    }
  }
}
