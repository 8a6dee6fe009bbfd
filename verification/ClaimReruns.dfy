/** Claim passes over ranges that overlap (internal/evmreader/claim.go).

    One snapshot of an application serves several growing ranges, so a later pass sees again what an
    earlier one has seen. */
module ClaimReruns {
  import opened Model
  import opened EpochMath
  import opened Tables
  import opened World
  import opened Claims

  predicate NoFailures(world: World, app: Address, mostRecent: nat, n: nat) {
    forall j: nat | j < n :: !world.claimUpdateFails(app, mostRecent, j)
  }

  /** More events at the end, and another pass without failures, make no difference to a prefix. */
  lemma {:induction false} SamePrefix(
    world: World, db: Db, app: Address, first: nat, second: nat,
    a: seq<ClaimAcceptance>, b: seq<ClaimAcceptance>, n: nat)
    requires OfOneApp(world, app, a + b) && OfOneApp(world, app, a) && app in db.apps && n <= |a|
    requires forall j: nat | j < n ::
               world.claimUpdateFails(app, first, j) == world.claimUpdateFails(app, second, j)
    ensures ClaimKeys(world, app, first, a, n) == ClaimKeys(world, app, second, a + b, n)
    ensures CursorAfter(world, db, app, first, a, n) == CursorAfter(world, db, app, second, a + b, n)
  {
    hide ClaimKey;
    assert forall j | 0 <= j < n :: (a + b)[j] == a[j];
    if n > 0 {
      SamePrefix(world, db, app, first, second, a, b, n - 1);
    }
  }

  lemma SameGood(
    world: World, db: Db, app: Address, first: nat, second: nat,
    a: seq<ClaimAcceptance>, b: seq<ClaimAcceptance>, i: nat)
    requires OfOneApp(world, app, a + b) && OfOneApp(world, app, a) && app in db.apps && i < |a|
    requires forall j: nat | j < i ::
               world.claimUpdateFails(app, first, j) == world.claimUpdateFails(app, second, j)
    ensures Good(world, db.epochs, app, first, a, i)
       <==> Good(world, db.epochs, app, second, a + b, i)
  {
    hide ClaimKeys, CursorAfter, ClaimKey;
    SamePrefix(world, db, app, first, second, a, b, i);
    assert (a + b)[i] == a[i];
  }

  // ---- settled events are passed over ----

  lemma SettledIsAccepted(
    world: World, db: Db, d: Db, app: Address, mostRecent: nat, events: seq<ClaimAcceptance>,
    i: nat, n: nat)
    requires OfOneApp(world, app, events) && app in db.apps && i < n <= |events|
    requires AllGood(world, db.epochs, app, mostRecent, events, n)
    requires NoFailures(world, app, mostRecent, n)
    requires SettledUpTo(world, db, d, app, mostRecent, events, n)
    ensures Judge(world, d, events[i]) == AlreadyAccepted
  {
    hide ClaimKey, CursorAfter;
    assert Good(world, db.epochs, app, mostRecent, events, i);
    assert ClaimKey(world, events[i]) in ClaimKeys(world, app, mostRecent, events, n);
    assert ClaimKeys(world, app, mostRecent, events, i)
        <= ClaimKeys(world, app, mostRecent, events, n);
    forall k | k in d.epochs && k.0 == app && d.epochs[k].lastBlock < events[i].lastBlock
      ensures d.epochs[k].status != ClaimSubmitted
    {
      assert db.epochs[k].status == ClaimSubmitted ==>
          k in ClaimKeys(world, app, mostRecent, events, i);
    }
  }

  /** Whatever updates would fail in the later pass. */
  lemma {:induction false} SettledAreSkipped(
    world: World, db: Db, d: Db, app: Address, first: nat, later: nat, events: seq<ClaimAcceptance>,
    i: nat, n: nat)
    requires OfOneApp(world, app, events) && app in db.apps && i <= n <= |events|
    requires AllGood(world, db.epochs, app, first, events, n) && NoFailures(world, app, first, n)
    requires SettledUpTo(world, db, d, app, first, events, n)
    ensures ClaimPass(world, d, app, later, events, i) == ClaimPass(world, d, app, later, events, n)
    decreases n - i
  {
    hide AllGood, SettledUpTo, Judge, ClaimPass, NoFailures;
    if i < n {
      SettledIsAccepted(world, db, d, app, first, events, i, n);
      PassStep(world, d, app, later, events, i);
      SettledAreSkipped(world, db, d, app, first, later, events, i + 1, n);
    }
  }

  // ---- running again ----

  /** A pass over the same events again changes nothing, whatever updates would fail in it. */
  lemma RerunIsIdle(
    world: World, db: Db, app: Address, first: nat, later: nat, events: seq<ClaimAcceptance>)
    requires OfOneApp(world, app, events) && app in db.apps && NoFailures(world, app, first, |events|)
    ensures var d := ClaimPass(world, db, app, first, events, 0);
            ClaimPass(world, d, app, later, events, 0) == d
  {
    hide Good, ClaimPass, Judge, NoFailures;
    var k := LongestPrefixFrom(world, db.epochs, app, first, events, 0);
    var d := ClaimPass(world, db, app, first, events, 0);
    FewerFailures(world, app, first, k, |events|);
    PassAcceptsLongestGoodPrefix(world, db, app, first, events, k);
    SettledAreSkipped(world, db, d, app, first, later, events, 0, k);
    PassStep(world, d, app, later, events, k);
    if k < |events| {
      JudgedByGoodness(world, db, d, app, first, events, k);
    }
  }

  lemma FewerFailures(world: World, app: Address, mostRecent: nat, n: nat, m: nat)
    requires NoFailures(world, app, mostRecent, m)
    ensures n <= m ==> NoFailures(world, app, mostRecent, n)
  {
  }

  /** A pass over some events and then over more of them is one pass over all of them, whichever
      updates fail for the added events. */
  lemma RerunAddsNothing(
    world: World, db: Db, app: Address, first: nat, second: nat,
    a: seq<ClaimAcceptance>, b: seq<ClaimAcceptance>)
    requires OfOneApp(world, app, a + b) && OfOneApp(world, app, a) && app in db.apps
    requires NoFailures(world, app, first, |a|) && NoFailures(world, app, second, |a|)
    ensures ClaimPass(world, ClaimPass(world, db, app, first, a, 0), app, second, a + b, 0)
         == ClaimPass(world, db, app, second, a + b, 0)
  {
    hide Good, ClaimPass, ClaimKeys, CursorAfter, Settle;
    var ka := LongestPrefixFrom(world, db.epochs, app, first, a, 0);
    var k := LongestPrefixFrom(world, db.epochs, app, second, a + b, 0);
    var d := ClaimPass(world, db, app, first, a, 0);
    forall i | 0 <= i < ka ensures Good(world, db.epochs, app, second, a + b, i) {
      SameGood(world, db, app, first, second, a, b, i);
    }
    SamePrefix(world, db, app, first, second, a, b, ka);
    PassAcceptsLongestGoodPrefix(world, db, app, first, a, ka);
    SettledAreSkipped(world, db, d, app, second, second, a + b, 0, ka);
    SettleFrom(world, db, d, app, second, a + b, ka, k);
    PassAcceptsLongestGoodPrefix(world, db, app, second, a + b, k);
  }

  // ---- running again after failures ----

  /** Settling some of the claims first leaves the longest good prefix what it was. */
  lemma PrefixAfterPartialPass(
    world: World, db: Db, d: Db, app: Address, first: nat, second: nat,
    a: seq<ClaimAcceptance>, b: seq<ClaimAcceptance>, ka: nat, k: nat)
    requires OfOneApp(world, app, a + b) && OfOneApp(world, app, a) && app in db.apps && ka <= |a|
    requires AllGood(world, db.epochs, app, first, a, ka)
    requires NoFailures(world, app, second, |a + b|)
    requires LongestGoodPrefix(world, db.epochs, app, second, a + b, k)
    requires SettledUpTo(world, db, d, app, first, a, ka)
    ensures ka <= k
    ensures ClaimKeys(world, app, first, a, ka) <= ClaimKeys(world, app, second, a + b, k)
    ensures LongestGoodPrefix(world, d.epochs, app, second, a + b, k)
  {
    hide ClaimKey, CursorAfter, Matches, ClaimKeys, EarlierSettled, Settle;
    forall i | 0 <= i < ka ensures Good(world, db.epochs, app, second, a + b, i) {
      GoodWithoutFailures(world, db, app, first, second, a, b, i);
    }
    FewerKeys(world, app, first, second, a, b, ka, k);
    assert AllGood(world, db.epochs, app, second, a + b, k);
    forall i | 0 <= i < |a + b| && i <= k
      ensures Good(world, d.epochs, app, second, a + b, i)
         <==> Good(world, db.epochs, app, second, a + b, i)
    {
      FewerKeys(world, app, first, second, a, b, ka, i);
      GoodAfterPartialPass(world, db, d, app, first, second, a, b, ka, i);
    }
  }

  lemma GoodWithoutFailures(
    world: World, db: Db, app: Address, first: nat, second: nat,
    a: seq<ClaimAcceptance>, b: seq<ClaimAcceptance>, i: nat)
    requires OfOneApp(world, app, a + b) && OfOneApp(world, app, a) && i < |a|
    requires Good(world, db.epochs, app, first, a, i) && NoFailures(world, app, second, |a + b|)
    ensures Good(world, db.epochs, app, second, a + b, i)
  {
    hide ClaimKey;
    assert (a + b)[i] == a[i];
    FewerKeys(world, app, first, second, a, b, i, i);
  }

  lemma FewerKeys(
    world: World, app: Address, first: nat, second: nat,
    a: seq<ClaimAcceptance>, b: seq<ClaimAcceptance>, n: nat, m: nat)
    requires OfOneApp(world, app, a + b) && OfOneApp(world, app, a)
    requires NoFailures(world, app, second, |a + b|)
    ensures n <= |a| && n <= m <= |a + b| ==>
              ClaimKeys(world, app, first, a, n) <= ClaimKeys(world, app, second, a + b, m)
  {
    assert forall j | 0 <= j < |a| :: (a + b)[j] == a[j];
  }

  lemma GoodAfterPartialPass(
    world: World, db: Db, d: Db, app: Address, first: nat, second: nat,
    a: seq<ClaimAcceptance>, b: seq<ClaimAcceptance>, ka: nat, i: nat)
    requires OfOneApp(world, app, a + b) && OfOneApp(world, app, a) && app in db.apps && ka <= |a|
    requires AllGood(world, db.epochs, app, first, a, ka)
    requires SettledUpTo(world, db, d, app, first, a, ka) && i < |a + b|
    requires || Good(world, db.epochs, app, second, a + b, i)
             || ClaimKeys(world, app, first, a, ka) <= ClaimKeys(world, app, second, a + b, i)
    ensures Good(world, d.epochs, app, second, a + b, i)
       <==> Good(world, db.epochs, app, second, a + b, i)
  {
    hide ClaimKeys, ClaimKey, CursorAfter, SettledUpTo, AllGood, Settle;
    forall key: EpochKey
      ensures key in d.epochs <==> key in db.epochs
      ensures key in d.epochs ==>
                d.epochs[key] == if key in ClaimKeys(world, app, first, a, ka)
                                 then db.epochs[key].(status := ClaimAccepted) else db.epochs[key]
      ensures key in ClaimKeys(world, app, first, a, ka) ==>
                key in db.epochs && (db.epochs[key].status == ClaimSubmitted
                                     || db.epochs[key].status == ClaimAccepted)
    {
      SettledRow(world, db, d, app, first, a, ka, key);
    }
  }

  /** Whichever updates fail in a first pass, a second one over the same events and more, in which
      none fails, leaves the epochs as if there had been only the second. */
  lemma RerunRepairs(
    world: World, db: Db, app: Address, first: nat, second: nat,
    a: seq<ClaimAcceptance>, b: seq<ClaimAcceptance>)
    requires OfOneApp(world, app, a + b) && OfOneApp(world, app, a) && app in db.apps
    requires NoFailures(world, app, second, |a + b|)
    ensures ClaimPass(world, ClaimPass(world, db, app, first, a, 0), app, second, a + b, 0).epochs
         == ClaimPass(world, db, app, second, a + b, 0).epochs
  {
    hide Good, ClaimPass, ClaimKeys, CursorAfter, NoFailures;
    var ka := LongestPrefixFrom(world, db.epochs, app, first, a, 0);
    var k := LongestPrefixFrom(world, db.epochs, app, second, a + b, 0);
    var d := ClaimPass(world, db, app, first, a, 0);
    PassAcceptsLongestGoodPrefix(world, db, app, first, a, ka);
    PassAcceptsLongestGoodPrefix(world, db, app, second, a + b, k);
    PrefixAfterPartialPass(world, db, d, app, first, second, a, b, ka, k);
    PassAcceptsLongestGoodPrefix(world, d, app, second, a + b, k);
  }

  // ---- rising claims: the cursor too ----

  /** After a failed update the next event finds the claim still open, and stops. */
  lemma FailedUpdateStops(
    world: World, db: Db, app: Address, mostRecent: nat, events: seq<ClaimAcceptance>, i: nat)
    requires OfOneApp(world, app, events) && ClaimsRise(events) && i < |events|
    requires Judge(world, db, events[i]) == AcceptNow
    ensures ClaimPass(world, db, app, mostRecent, events, i + 1) == db
  {
    hide CalculateEpochIndex;
    if i + 1 < |events| {
      assert ClaimKey(world, events[i]) in OpenClaimsBefore(db, app, events[i + 1].lastBlock);
    }
  }

  /** So a pass in which updates fail is one without failures over the first events only. */
  lemma {:induction false} FailedPassIsShorter(
    world: World, d: Db, app: Address, first: nat, second: nat, a: seq<ClaimAcceptance>, i: nat)
    returns (m: nat)
    requires OfOneApp(world, app, a) && ClaimsRise(a) && i <= |a| && NoFailures(world, app, second, |a|)
    ensures i <= m <= |a|
    ensures ClaimPass(world, d, app, first, a, i) == ClaimPass(world, d, app, second, a[..m], i)
    decreases |a| - i
  {
    hide Judge, ClaimPass, ClaimsRise, AcceptClaim;
    PassStep(world, d, app, first, a, i);
    m := i;
    PassStep(world, d, app, second, a[..i], i);
    if i < |a| && Judge(world, d, a[i]) != StopHere {
      if Judge(world, d, a[i]) == AcceptNow && world.claimUpdateFails(app, first, i) {
        FailedUpdateStops(world, d, app, first, a, i);
      } else {
        var next := AfterEvent(world, d, app, first, a, i);
        m := FailedPassIsShorter(world, next, app, first, second, a, i + 1);
        assert a[..m][i] == a[i];
        PassStep(world, d, app, second, a[..m], i);
      }
    }
  }

  /** With rising claims a second pass makes up for every failure in the first, cursor and all. */
  lemma RerunRepairsCursor(
    world: World, db: Db, app: Address, first: nat, second: nat,
    a: seq<ClaimAcceptance>, b: seq<ClaimAcceptance>)
    requires OfOneApp(world, app, a + b) && OfOneApp(world, app, a) && app in db.apps
    requires ClaimsRise(a) && NoFailures(world, app, second, |a|)
    ensures ClaimPass(world, ClaimPass(world, db, app, first, a, 0), app, second, a + b, 0)
         == ClaimPass(world, db, app, second, a + b, 0)
  {
    hide ClaimPass, ClaimsRise, OfOneApp, NoFailures;
    var m := FailedPassIsShorter(world, db, app, first, second, a, 0);
    FewerFailures(world, app, second, m, |a|);
    PrefixOfApp(world, app, a, m);
    assert a[..m] + (a[m..] + b) == a + b;
    RerunAddsNothing(world, db, app, second, second, a[..m], a[m..] + b);
  }

  lemma PrefixOfApp(world: World, app: Address, a: seq<ClaimAcceptance>, m: nat)
    requires OfOneApp(world, app, a) && m <= |a|
    ensures OfOneApp(world, app, a[..m])
  {
  }
}
