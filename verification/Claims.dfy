/** Claim acceptance (internal/evmreader/claim.go, internal/repository/evmreader.go).

    A pass goes through the acceptance events of a block range, sorted by the last block of the claim,
    and stops at the first one the store cannot vouch for. `ClaimPass` is that loop. */
module Claims {
  import opened Model
  import opened EpochMath
  import opened Tables
  import opened World
  import Sorting

  /** The events of `app` in a block range, in the order of `events`. */
  function ClaimsIn(events: seq<ClaimAcceptance>, app: Address, startBlock: nat, endBlock: nat)
    : seq<ClaimAcceptance>
  {
    if events == [] then []
    else
      var e := events[|events| - 1];
      var front := ClaimsIn(events[..|events| - 1], app, startBlock, endBlock);
      if e.app == app && startBlock <= e.block <= endBlock then front + [e] else front
  }

  function LastBlockKey(e: ClaimAcceptance): int {
    e.lastBlock
  }

  /** Epochs of `app` with a submitted claim that end before `block`. */
  function OpenClaimsBefore(db: Db, app: Address, block: nat): set<EpochKey> {
    set key | key in db.epochs && key.0 == app
      && db.epochs[key].status == ClaimSubmitted && db.epochs[key].lastBlock < block
  }

  function ClaimKey(world: World, e: ClaimAcceptance): EpochKey
    requires world.epochLength(e.app) >= 1
  {
    (e.app, CalculateEpochIndex(world.epochLength(e.app), e.lastBlock))
  }

  datatype Verdict = StopHere | AlreadyAccepted | AcceptNow

  function Judge(world: World, db: Db, e: ClaimAcceptance): Verdict
    requires world.epochLength(e.app) >= 1
  {
    var key := ClaimKey(world, e);
    if OpenClaimsBefore(db, e.app, e.lastBlock) != {} then StopHere
    else if key !in db.epochs then StopHere
    else
      var row := db.epochs[key];
      if row.claimHash.None? then StopHere
      else if e.claim != row.claimHash.value || e.lastBlock != row.lastBlock then StopHere
      else if row.status == ClaimAccepted then AlreadyAccepted
      else if row.status != ClaimSubmitted then StopHere
      else AcceptNow
  }

  function SetClaimCheckBlock(db: Db, app: Address, block: nat): Db {
    if app in db.apps
    then db.(apps := db.apps[app := db.apps[app].(lastClaimCheckBlock := block)])
    else db
  }

  /** UPDATE the statuses of epochs, one after the other. A row that is not there is an error. */
  function RecordStatuses(epochs: map<EpochKey, EpochRow>, updates: seq<(EpochKey, EpochStatus)>)
    : Option<map<EpochKey, EpochRow>>
  {
    if updates == [] then Some(epochs)
    else
      var u := updates[|updates| - 1];
      match RecordStatuses(epochs, updates[..|updates| - 1])
      case None => None
      case Some(m) => if u.0 !in m then None else Some(m[u.0 := m[u.0].(status := u.1)])
  }

  lemma RecordOneStatus(epochs: map<EpochKey, EpochRow>, key: EpochKey, status: EpochStatus)
    requires key in epochs
    ensures RecordStatuses(epochs, [(key, status)])
         == Some(epochs[key := epochs[key].(status := status)])
  {
    assert [(key, status)][..0] == [];
  }

  /** Mark the epoch and move the cursor to the event's block, in one transaction. */
  function AcceptClaim(world: World, db: Db, e: ClaimAcceptance): Db
    requires world.epochLength(e.app) >= 1 && ClaimKey(world, e) in db.epochs
  {
    var key := ClaimKey(world, e);
    SetClaimCheckBlock(
      db.(epochs := db.epochs[key := db.epochs[key].(status := ClaimAccepted)]), e.app, e.block)
  }

  predicate OfOneApp(world: World, app: Address, events: seq<ClaimAcceptance>) {
    world.epochLength(app) >= 1 && forall i | 0 <= i < |events| :: events[i].app == app
  }

  /** The pass from event `i` on. An update that fails leaves the tables alone and the loop goes on. */
  function ClaimPass(
    world: World, db: Db, app: Address, mostRecent: nat, events: seq<ClaimAcceptance>, i: nat): Db
    requires OfOneApp(world, app, events) && i <= |events|
    decreases |events| - i
  {
    if i == |events| then db
    else
      match Judge(world, db, events[i])
      case StopHere => db
      case AlreadyAccepted => ClaimPass(world, db, app, mostRecent, events, i + 1)
      case AcceptNow =>
        var next := if world.claimUpdateFails(app, mostRecent, i) then db
                    else AcceptClaim(world, db, events[i]);
        ClaimPass(world, next, app, mostRecent, events, i + 1)
  }

  lemma {:induction false} ClaimsInMembers(
    events: seq<ClaimAcceptance>, app: Address, startBlock: nat, endBlock: nat)
    ensures forall x :: x in ClaimsIn(events, app, startBlock, endBlock) <==>
              x in events && x.app == app && startBlock <= x.block <= endBlock
  {
    if events != [] {
      var front, e := events[..|events| - 1], events[|events| - 1];
      ClaimsInMembers(front, app, startBlock, endBlock);
      assert events == front + [e];
    }
  }

  /** Where a pass begins: a snapshot of the cursor, but not before the InputBox was deployed. */
  function ClaimStart(world: World, lastClaimCheck: nat): nat {
    if lastClaimCheck < world.inputBoxDeploymentBlock then world.inputBoxDeploymentBlock - 1
    else lastClaimCheck
  }

  /** What the node answers, in an order of its own. */
  function ClaimAnswer(world: World, app: Address, startBlock: nat, endBlock: nat)
    : seq<ClaimAcceptance>
  {
    ClaimsIn(world.claimOrder(app, startBlock, endBlock), app, startBlock, endBlock)
  }

  /** The events of a pass: the answer, sorted by the last block of the claims. */
  function ClaimEvents(world: World, app: Address, startBlock: nat, endBlock: nat)
    : seq<ClaimAcceptance>
  {
    Sorting.SortArrivals(LastBlockKey, ClaimAnswer(world, app, startBlock, endBlock))
  }

  /** CheckForClaimStatus for one application. */
  function CheckClaims(world: World, db: Db, app: Address, lastClaimCheck: nat, mostRecent: nat): Db
    requires world.epochLength(app) >= 1
  {
    var start := ClaimStart(world, lastClaimCheck);
    if mostRecent <= start then db
    else
      var events := ClaimEvents(world, app, start + 1, mostRecent);
      ClaimsAreOfApp(world, app, start + 1, mostRecent);
      ClaimPass(world, db, app, mostRecent, events, 0)
  }

  /** A pass is about the events of the answer, by rising last block, each once. */
  lemma ClaimsAreOfApp(world: World, app: Address, startBlock: nat, endBlock: nat)
    requires world.epochLength(app) >= 1
    ensures var events := ClaimEvents(world, app, startBlock, endBlock);
            && OfOneApp(world, app, events)
            && Sorting.SortedBy(LastBlockKey, events)
            && (forall x :: x in events <==>
                  x in world.claimOrder(app, startBlock, endBlock)
                  && x.app == app && startBlock <= x.block <= endBlock)
  {
    var answer := ClaimAnswer(world, app, startBlock, endBlock);
    var events := ClaimEvents(world, app, startBlock, endBlock);
    ClaimsInMembers(world.claimOrder(app, startBlock, endBlock), app, startBlock, endBlock);
    Sorting.SortedPermutation(LastBlockKey, answer);
    forall x ensures x in events <==> x in answer {
      assert x in events <==> x in multiset(events);
      assert x in answer <==> x in multiset(answer);
    }
    forall i | 0 <= i < |events| ensures events[i].app == app {
      assert events[i] in events;
    }
  }

  // ---- a pass touches only claims ----

  /** Nothing has changed but claims from submitted to accepted, and the claim cursor of `app`. */
  ghost predicate OnlyClaimsAccepted(before: Db, after: Db, app: Address) {
    && after.epochs.Keys == before.epochs.Keys
    && (forall key | key in before.epochs ::
          || after.epochs[key] == before.epochs[key]
          || (key.0 == app && before.epochs[key].status == ClaimSubmitted
              && after.epochs[key] == before.epochs[key].(status := ClaimAccepted)))
    && after.apps.Keys == before.apps.Keys
    && (forall a | a in before.apps :: after.apps[a] == before.apps[a]
          || (a == app && after.apps[a] == before.apps[a].(
                lastClaimCheckBlock := after.apps[a].lastClaimCheckBlock)))
    && after == before.(epochs := after.epochs, apps := after.apps)
  }

  lemma OnlyClaimsChain(a: Db, b: Db, c: Db, app: Address)
    requires OnlyClaimsAccepted(a, b, app) && OnlyClaimsAccepted(b, c, app)
    ensures OnlyClaimsAccepted(a, c, app)
  {
  }

  lemma AcceptTouchesOneClaim(world: World, db: Db, e: ClaimAcceptance)
    requires world.epochLength(e.app) >= 1
    ensures OnlyClaimsAccepted(db, db, e.app)
    ensures Judge(world, db, e) == AcceptNow ==>
              OnlyClaimsAccepted(db, AcceptClaim(world, db, e), e.app)
  {
    hide CalculateEpochIndex;
    if Judge(world, db, e) == AcceptNow {
      var key := ClaimKey(world, e);
      assert key.0 == e.app && key in db.epochs && db.epochs[key].status == ClaimSubmitted;
      hide Judge, ClaimKey;
      MarkingOneClaim(db, key, e.app, e.block);
    }
  }

  lemma MarkingOneClaim(db: Db, key: EpochKey, app: Address, block: nat)
    requires key in db.epochs && key.0 == app && db.epochs[key].status == ClaimSubmitted
    ensures OnlyClaimsAccepted(db, SetClaimCheckBlock(
              db.(epochs := db.epochs[key := db.epochs[key].(status := ClaimAccepted)]), app, block),
              app)
  {
  }

  lemma {:induction false} PassTouchesOnlyClaims(
    world: World, db: Db, app: Address, mostRecent: nat, events: seq<ClaimAcceptance>, i: nat)
    requires OfOneApp(world, app, events) && i <= |events|
    ensures OnlyClaimsAccepted(db, ClaimPass(world, db, app, mostRecent, events, i), app)
    decreases |events| - i
  {
    if i < |events| && Judge(world, db, events[i]) != StopHere {
      var next :=
        if Judge(world, db, events[i]) == AcceptNow && !world.claimUpdateFails(app, mostRecent, i)
        then AcceptClaim(world, db, events[i]) else db;
      AcceptTouchesOneClaim(world, db, events[i]);
      hide OnlyClaimsAccepted, Judge, AcceptClaim;
      PassTouchesOnlyClaims(world, next, app, mostRecent, events, i + 1);
      OnlyClaimsChain(db, next, ClaimPass(world, next, app, mostRecent, events, i + 1), app);
    }
  }

  // ---- what is accepted: the longest good prefix ----

  /** The stored epoch has this claim, submitted or accepted already. */
  predicate Matches(world: World, epochs: map<EpochKey, EpochRow>, e: ClaimAcceptance)
    requires world.epochLength(e.app) >= 1
  {
    var key := ClaimKey(world, e);
    && key in epochs
    && epochs[key].claimHash == Some(e.claim)
    && epochs[key].lastBlock == e.lastBlock
    && (epochs[key].status == ClaimSubmitted || epochs[key].status == ClaimAccepted)
  }

  /** The epochs the first `n` events are about, but for events whose update fails. */
  function ClaimKeys(
    world: World, app: Address, mostRecent: nat, events: seq<ClaimAcceptance>, n: nat): set<EpochKey>
    requires OfOneApp(world, app, events) && n <= |events|
  {
    set j | 0 <= j < n && !world.claimUpdateFails(app, mostRecent, j) :: ClaimKey(world, events[j])
  }

  /** Every claim submitted for an earlier epoch is settled by an event before event `i`. */
  ghost predicate EarlierSettled(
    world: World, epochs: map<EpochKey, EpochRow>, app: Address, mostRecent: nat,
    events: seq<ClaimAcceptance>, i: nat)
    requires OfOneApp(world, app, events) && i < |events|
  {
    forall key | key in epochs && key.0 == app && epochs[key].status == ClaimSubmitted
        && epochs[key].lastBlock < events[i].lastBlock ::
      key in ClaimKeys(world, app, mostRecent, events, i)
  }

  ghost predicate Good(
    world: World, epochs: map<EpochKey, EpochRow>, app: Address, mostRecent: nat,
    events: seq<ClaimAcceptance>, i: nat)
    requires OfOneApp(world, app, events) && i < |events|
  {
    && Matches(world, epochs, events[i])
    && EarlierSettled(world, epochs, app, mostRecent, events, i)
  }

  ghost predicate AllGood(
    world: World, epochs: map<EpochKey, EpochRow>, app: Address, mostRecent: nat,
    events: seq<ClaimAcceptance>, n: nat)
    requires OfOneApp(world, app, events) && n <= |events|
  {
    forall i | 0 <= i < n :: Good(world, epochs, app, mostRecent, events, i)
  }

  /** `k` events from the start are good, and the next one, if there is one, is not. */
  ghost predicate LongestGoodPrefix(
    world: World, epochs: map<EpochKey, EpochRow>, app: Address, mostRecent: nat,
    events: seq<ClaimAcceptance>, k: nat)
    requires OfOneApp(world, app, events)
  {
    && k <= |events|
    && AllGood(world, epochs, app, mostRecent, events, k)
    && (k < |events| ==> !Good(world, epochs, app, mostRecent, events, k))
  }

  function Settle(epochs: map<EpochKey, EpochRow>, keys: set<EpochKey>): map<EpochKey, EpochRow> {
    map key | key in epochs ::
      if key in keys then epochs[key].(status := ClaimAccepted) else epochs[key]
  }

  /** Event `i` is the one that gets its epoch accepted. */
  predicate Newly(
    world: World, db: Db, app: Address, mostRecent: nat, events: seq<ClaimAcceptance>, i: nat)
    requires OfOneApp(world, app, events) && i < |events|
  {
    var key := ClaimKey(world, events[i]);
    && key in db.epochs && db.epochs[key].status == ClaimSubmitted
    && !world.claimUpdateFails(app, mostRecent, i)
    && key !in ClaimKeys(world, app, mostRecent, events, i)
  }

  /** The block of the last of the first `k` events that gets its epoch accepted, if any. */
  function CursorAfter(
    world: World, db: Db, app: Address, mostRecent: nat, events: seq<ClaimAcceptance>, k: nat): nat
    requires OfOneApp(world, app, events) && k <= |events| && app in db.apps
  {
    if k == 0 then db.apps[app].lastClaimCheckBlock
    else if Newly(world, db, app, mostRecent, events, k - 1) then events[k - 1].block
    else CursorAfter(world, db, app, mostRecent, events, k - 1)
  }

  /** The tables after the first `i` events of a good prefix. */
  ghost predicate SettledUpTo(
    world: World, db: Db, d: Db, app: Address, mostRecent: nat, events: seq<ClaimAcceptance>, i: nat)
    requires OfOneApp(world, app, events) && i <= |events| && app in db.apps
  {
    && d.epochs == Settle(db.epochs, ClaimKeys(world, app, mostRecent, events, i))
    && d.apps == db.apps[app := db.apps[app].(
         lastClaimCheckBlock := CursorAfter(world, db, app, mostRecent, events, i))]
    && d == db.(epochs := d.epochs, apps := d.apps)
  }

  /** One pass, over whatever events and whichever updates fail, accepts exactly the claims of the
      longest good prefix, judged on the tables as they were before the pass, and moves the cursor to
      the last event that got a claim accepted. */
  lemma PassAcceptsLongestGoodPrefix(
    world: World, db: Db, app: Address, mostRecent: nat, events: seq<ClaimAcceptance>, k: nat)
    requires OfOneApp(world, app, events) && app in db.apps
    requires LongestGoodPrefix(world, db.epochs, app, mostRecent, events, k)
    ensures var after := ClaimPass(world, db, app, mostRecent, events, 0);
            && after.epochs == Settle(db.epochs, ClaimKeys(world, app, mostRecent, events, k))
            && after.apps == db.apps[app := db.apps[app].(
                 lastClaimCheckBlock := CursorAfter(world, db, app, mostRecent, events, k))]
            && after == db.(epochs := after.epochs, apps := after.apps)
  {
    hide ClaimPass, Good;
    SettledNothing(world, db, app, mostRecent, events);
    SettleFrom(world, db, db, app, mostRecent, events, 0, k);
  }

  lemma SettledNothing(
    world: World, db: Db, app: Address, mostRecent: nat, events: seq<ClaimAcceptance>)
    requires OfOneApp(world, app, events) && app in db.apps
    ensures SettledUpTo(world, db, db, app, mostRecent, events, 0)
  {
    assert ClaimKeys(world, app, mostRecent, events, 0) == {};
    assert Settle(db.epochs, {}) == db.epochs;
  }

  function AfterEvent(
    world: World, d: Db, app: Address, mostRecent: nat, events: seq<ClaimAcceptance>, i: nat): Db
    requires OfOneApp(world, app, events) && i < |events|
  {
    if Judge(world, d, events[i]) == AcceptNow && !world.claimUpdateFails(app, mostRecent, i)
    then AcceptClaim(world, d, events[i]) else d
  }

  lemma PassStep(
    world: World, d: Db, app: Address, mostRecent: nat, events: seq<ClaimAcceptance>, i: nat)
    requires OfOneApp(world, app, events) && i <= |events|
    ensures ClaimPass(world, d, app, mostRecent, events, i) ==
      if i == |events| || Judge(world, d, events[i]) == StopHere then d
      else ClaimPass(world, AfterEvent(world, d, app, mostRecent, events, i), app, mostRecent, events,
                     i + 1)
  {
    hide Judge;
  }

  lemma {:induction false} SettleFrom(
    world: World, db: Db, d: Db, app: Address, mostRecent: nat, events: seq<ClaimAcceptance>,
    i: nat, k: nat)
    requires OfOneApp(world, app, events) && app in db.apps
    requires i <= k <= |events| && LongestGoodPrefix(world, db.epochs, app, mostRecent, events, k)
    requires SettledUpTo(world, db, d, app, mostRecent, events, i)
    ensures SettledUpTo(world, db, ClaimPass(world, d, app, mostRecent, events, i), app, mostRecent,
                        events, k)
    decreases k - i
  {
    hide Judge, Good, SettledUpTo, ClaimPass, AfterEvent;
    PassStep(world, d, app, mostRecent, events, i);
    if i < |events| {
      JudgedByGoodness(world, db, d, app, mostRecent, events, i);
      if i < k {
        GoodEventSettles(world, db, d, app, mostRecent, events, i);
        SettleFrom(world, db, AfterEvent(world, d, app, mostRecent, events, i), app, mostRecent,
                   events, i + 1, k);
      }
    }
  }

  /** What a settled epoch looks like in the middle of a pass. */
  lemma SettledRow(
    world: World, db: Db, d: Db, app: Address, mostRecent: nat, events: seq<ClaimAcceptance>, i: nat,
    key: EpochKey)
    requires OfOneApp(world, app, events) && app in db.apps && i <= |events|
    requires SettledUpTo(world, db, d, app, mostRecent, events, i)
    requires AllGood(world, db.epochs, app, mostRecent, events, i)
    ensures key in d.epochs <==> key in db.epochs
    ensures key in d.epochs ==>
              d.epochs[key] == if key in ClaimKeys(world, app, mostRecent, events, i)
                               then db.epochs[key].(status := ClaimAccepted) else db.epochs[key]
    ensures key in ClaimKeys(world, app, mostRecent, events, i) ==>
              key in db.epochs
              && (db.epochs[key].status == ClaimSubmitted || db.epochs[key].status == ClaimAccepted)
  {
    hide EarlierSettled, ClaimKey, CursorAfter;
    if key in ClaimKeys(world, app, mostRecent, events, i) {
      var j :| 0 <= j < i && key == ClaimKey(world, events[j]);
      assert Good(world, db.epochs, app, mostRecent, events, j);
    }
  }

  /** In the middle of a pass the loop goes on exactly if the event is good for the tables the pass
      began with. */
  lemma JudgedByGoodness(
    world: World, db: Db, d: Db, app: Address, mostRecent: nat, events: seq<ClaimAcceptance>, i: nat)
    requires OfOneApp(world, app, events) && app in db.apps && i < |events|
    requires AllGood(world, db.epochs, app, mostRecent, events, i)
    requires SettledUpTo(world, db, d, app, mostRecent, events, i)
    ensures Judge(world, d, events[i]) != StopHere
       <==> Good(world, db.epochs, app, mostRecent, events, i)
    ensures Judge(world, d, events[i]) == AcceptNow ==>
              db.epochs[ClaimKey(world, events[i])].status == ClaimSubmitted
              && ClaimKey(world, events[i]) !in ClaimKeys(world, app, mostRecent, events, i)
    ensures Judge(world, d, events[i]) == AlreadyAccepted ==>
              || ClaimKey(world, events[i]) in ClaimKeys(world, app, mostRecent, events, i)
              || db.epochs[ClaimKey(world, events[i])].status == ClaimAccepted
  {
    hide AllGood, ClaimKeys, EarlierSettled, OpenClaimsBefore, CursorAfter, Settle;
    SettledRow(world, db, d, app, mostRecent, events, i, ClaimKey(world, events[i]));
    NoOpenClaims(world, db, d, app, mostRecent, events, i);
  }

  /** What the query for submitted claims of earlier epochs finds in the middle of a pass: nothing,
      exactly if each of them is settled by an event before. */
  lemma NoOpenClaims(
    world: World, db: Db, d: Db, app: Address, mostRecent: nat, events: seq<ClaimAcceptance>, i: nat)
    requires OfOneApp(world, app, events) && i < |events|
    requires d.epochs == Settle(db.epochs, ClaimKeys(world, app, mostRecent, events, i))
    ensures OpenClaimsBefore(d, app, events[i].lastBlock) == {} <==>
            EarlierSettled(world, db.epochs, app, mostRecent, events, i)
  {
    var block, keys := events[i].lastBlock, ClaimKeys(world, app, mostRecent, events, i);
    if !EarlierSettled(world, db.epochs, app, mostRecent, events, i) {
      var key :| key in db.epochs && key.0 == app && db.epochs[key].status == ClaimSubmitted
        && db.epochs[key].lastBlock < block && key !in keys;
      assert key in OpenClaimsBefore(d, app, block);
    }
    if OpenClaimsBefore(d, app, block) != {} {
      var key :| key in OpenClaimsBefore(d, app, block);
      assert key in db.epochs && key !in keys;
    }
  }

  lemma GoodEventSettles(
    world: World, db: Db, d: Db, app: Address, mostRecent: nat, events: seq<ClaimAcceptance>, i: nat)
    requires OfOneApp(world, app, events) && app in db.apps && i < |events|
    requires AllGood(world, db.epochs, app, mostRecent, events, i + 1)
    requires SettledUpTo(world, db, d, app, mostRecent, events, i)
    ensures SettledUpTo(world, db, AfterEvent(world, d, app, mostRecent, events, i), app, mostRecent,
                        events, i + 1)
  {
    hide Judge, EarlierSettled, ClaimKeys, CursorAfter, Settle, SettledUpTo, AcceptClaim;
    assert Good(world, db.epochs, app, mostRecent, events, i);
    GoodBefore(world, db.epochs, app, mostRecent, events, i);
    JudgedByGoodness(world, db, d, app, mostRecent, events, i);
    SettleOne(world, db, d, app, mostRecent, events, i);
  }

  lemma GoodBefore(
    world: World, epochs: map<EpochKey, EpochRow>, app: Address, mostRecent: nat,
    events: seq<ClaimAcceptance>, i: nat)
    requires OfOneApp(world, app, events) && i < |events|
    requires AllGood(world, epochs, app, mostRecent, events, i + 1)
    ensures AllGood(world, epochs, app, mostRecent, events, i)
  {
  }

  lemma KeysOneMore(
    world: World, app: Address, mostRecent: nat, events: seq<ClaimAcceptance>, i: nat)
    requires OfOneApp(world, app, events) && i < |events|
    ensures ClaimKeys(world, app, mostRecent, events, i + 1)
         == ClaimKeys(world, app, mostRecent, events, i)
          + if world.claimUpdateFails(app, mostRecent, i) then {} else {ClaimKey(world, events[i])}
  {
  }

  /** The event settles its epoch if it gets it accepted, and otherwise changes nothing. */
  lemma SettleOne(
    world: World, db: Db, d: Db, app: Address, mostRecent: nat, events: seq<ClaimAcceptance>, i: nat)
    requires OfOneApp(world, app, events) && app in db.apps && i < |events|
    requires SettledUpTo(world, db, d, app, mostRecent, events, i)
    requires Matches(world, db.epochs, events[i])
    ensures ClaimKey(world, events[i]) in d.epochs
    ensures SettledUpTo(world, db,
              if Newly(world, db, app, mostRecent, events, i) then AcceptClaim(world, d, events[i])
              else d, app, mostRecent, events, i + 1)
  {
    hide ClaimKeys, ClaimKey;
    var key := ClaimKey(world, events[i]);
    KeysOneMore(world, app, mostRecent, events, i);
    OwnApp(world, events[i]);
    var before, after := ClaimKeys(world, app, mostRecent, events, i),
                         ClaimKeys(world, app, mostRecent, events, i + 1);
    var settled := Settle(db.epochs, after);
    if Newly(world, db, app, mostRecent, events, i) {
      assert AcceptClaim(world, d, events[i]).epochs == settled;
    } else {
      assert db.epochs[key].status == ClaimAccepted ==>
          db.epochs[key].(status := ClaimAccepted) == db.epochs[key];
      assert d.epochs == settled;
    }
  }

  lemma OwnApp(world: World, e: ClaimAcceptance)
    requires world.epochLength(e.app) >= 1
    ensures ClaimKey(world, e).0 == e.app
  {
  }

  ghost function LongestPrefixFrom(
    world: World, epochs: map<EpochKey, EpochRow>, app: Address, mostRecent: nat,
    events: seq<ClaimAcceptance>, i: nat)
    : (k: nat)
    requires OfOneApp(world, app, events) && i <= |events|
    requires AllGood(world, epochs, app, mostRecent, events, i)
    ensures LongestGoodPrefix(world, epochs, app, mostRecent, events, k)
    decreases |events| - i
  {
    if i == |events| || !Good(world, epochs, app, mostRecent, events, i) then i
    else LongestPrefixFrom(world, epochs, app, mostRecent, events, i + 1)
  }

  // ---- failed updates ----

  /** An epoch whose updates have all failed stops every event about a later one. */
  lemma FailedUpdateBlocks(
    world: World, db: Db, app: Address, mostRecent: nat, events: seq<ClaimAcceptance>, i: nat, m: nat)
    requires OfOneApp(world, app, events) && i < m < |events|
    requires Matches(world, db.epochs, events[i])
    requires db.epochs[ClaimKey(world, events[i])].status == ClaimSubmitted
    requires ClaimKey(world, events[i]) !in ClaimKeys(world, app, mostRecent, events, m)
    requires events[i].lastBlock < events[m].lastBlock
    ensures !Good(world, db.epochs, app, mostRecent, events, m)
  {
    OwnApp(world, events[i]);
  }

  predicate ClaimsRise(events: seq<ClaimAcceptance>) {
    forall i, j | 0 <= i < j < |events| ::
      events[i].lastBlock < events[j].lastBlock && events[i].block < events[j].block
  }

  /** With rising last blocks the first update that fails ends the pass: what is accepted are the claims
      of the events before it, whatever other updates would fail. */
  lemma FirstFailureEndsPass(
    world: World, db: Db, app: Address, mostRecent: nat, events: seq<ClaimAcceptance>, i: nat, k: nat)
    requires OfOneApp(world, app, events) && ClaimsRise(events) && app in db.apps
    requires LongestGoodPrefix(world, db.epochs, app, mostRecent, events, k) && i < k
    requires world.claimUpdateFails(app, mostRecent, i)
    requires ClaimKey(world, events[i]) in db.epochs
    requires db.epochs[ClaimKey(world, events[i])].status == ClaimSubmitted
    ensures k == i + 1
    ensures SettledUpTo(world, db, ClaimPass(world, db, app, mostRecent, events, 0), app, mostRecent,
                        events, i)
  {
    hide ClaimPass, EarlierSettled, Settle, ClaimKey;
    assert Good(world, db.epochs, app, mostRecent, events, i);
    RisingKeysDiffer(world, db, app, mostRecent, events, i, k);
    KeysOneMore(world, app, mostRecent, events, i);
    if i + 1 < |events| {
      FailedUpdateBlocks(world, db, app, mostRecent, events, i, i + 1);
    }
    assert k == i + 1;
    PassAcceptsLongestGoodPrefix(world, db, app, mostRecent, events, k);
    assert ClaimKeys(world, app, mostRecent, events, i + 1)
        == ClaimKeys(world, app, mostRecent, events, i);
    assert CursorAfter(world, db, app, mostRecent, events, i + 1)
        == CursorAfter(world, db, app, mostRecent, events, i);
  }

  /** No two events of a good prefix with rising last blocks are about the same epoch. */
  lemma RisingKeysDiffer(
    world: World, db: Db, app: Address, mostRecent: nat, events: seq<ClaimAcceptance>, i: nat, k: nat)
    requires OfOneApp(world, app, events) && ClaimsRise(events) && i < k <= |events|
    requires AllGood(world, db.epochs, app, mostRecent, events, k)
    ensures forall j | 0 <= j < k && j != i ::
              ClaimKey(world, events[j]) != ClaimKey(world, events[i])
    ensures ClaimKey(world, events[i]) !in ClaimKeys(world, app, mostRecent, events, i)
    ensures world.claimUpdateFails(app, mostRecent, i) ==>
              ClaimKey(world, events[i]) !in ClaimKeys(world, app, mostRecent, events, k)
  {
    hide EarlierSettled, ClaimKey;
    assert Good(world, db.epochs, app, mostRecent, events, i);
    forall j | 0 <= j < k && j != i
      ensures ClaimKey(world, events[j]) != ClaimKey(world, events[i])
    {
      assert Good(world, db.epochs, app, mostRecent, events, j);
    }
  }
}
