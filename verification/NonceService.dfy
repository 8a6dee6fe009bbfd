/** The nonce service (internal/espressoreader/service/espressoreader_service.go).

    It tells a sender the next nonce to use, looking ahead of the nonce the reader has stored, and
    forwards transactions to Espresso. `NonceService` is the service's two handlers; the state machine
    below it lets them interleave, step by step, with the reader consuming what was forwarded. */
module NonceService {
  import opened Model
  import opened Tables
  import opened Database
  import opened World
  import opened Ledger
  import EspressoInput
  import EspressoRefinement

  /** Application, then sender. */
  type Cache = map<Address, map<Address, nat>>

  /** A missing entry reads as zero. */
  function Cached(cache: Cache, app: Address, sender: Address): nat {
    if app in cache && sender in cache[app] then cache[app][sender] else 0
  }

  function Put(cache: Cache, app: Address, sender: Address, nonce: nat): Cache {
    var ofApp: map<Address, nat> := if app in cache then cache[app] else map[];
    var changed: map<Address, nat> := ofApp[sender := nonce];
    cache[app := changed]
  }

  /** The nonce to answer with. */
  function Answer(cache: Cache, app: Address, sender: Address, stored: nat): nat {
    if Cached(cache, app, sender) == 0 then stored else Cached(cache, app, sender)
  }

  /** The cache after the answer. */
  function AfterRequest(cache: Cache, app: Address, sender: Address, stored: nat): Cache {
    var ofApp := if app in cache then cache else cache[app := map[]];
    if Cached(cache, app, sender) == 0 then Put(ofApp, app, sender, stored) else ofApp
  }

  /** The cache once a forwarded transaction has been accounted for. */
  function AfterSubmit(cache: Cache, app: Address, sender: Address, nonce: nat, stored: nat): Cache {
    if app !in cache then cache
    else if Cached(cache, app, sender) == 0 then
      if nonce != stored then cache else Put(cache, app, sender, stored + 1)
    else Put(cache, app, sender, Cached(cache, app, sender) + 1)
  }

  class NonceService {
    const database: Database
    var nonceCache: Cache

    constructor (database: Database)
      ensures this.database == database && nonceCache == map[]
    {
      this.database, nonceCache := database, map[];
    }

    method RequestNonce(sender: Address, app: Address) returns (nonce: nat)
      modifies this
      ensures nonce == Answer(old(nonceCache), app, sender, Nonce(database.tables, sender, app))
      ensures nonceCache
           == AfterRequest(old(nonceCache), app, sender, Nonce(database.tables, sender, app))
      ensures Cached(nonceCache, app, sender) == nonce
    {
      if app !in nonceCache {
        nonceCache := nonceCache[app := map[]];
      }
      if Cached(nonceCache, app, sender) == 0 {
        nonce := database.GetEspressoNonce(sender, app);
        nonceCache := Put(nonceCache, app, sender, nonce);
      } else {
        nonce := nonceCache[app][sender];
      }
    }

    /** The part of submit that follows once Espresso has the transaction. */
    method AccountFor(sender: Address, app: Address, nonce: nat)
      modifies this
      ensures nonceCache
           == AfterSubmit(old(nonceCache), app, sender, nonce, Nonce(database.tables, sender, app))
    {
      if app !in nonceCache {
        return;
      }
      if Cached(nonceCache, app, sender) == 0 {
        var nonceInDb := database.GetEspressoNonce(sender, app);
        if nonce != nonceInDb {
          return;
        }
        nonceCache := Put(nonceCache, app, sender, nonceInDb + 1);
      } else {
        nonceCache := Put(nonceCache, app, sender, nonceCache[app][sender] + 1);
      }
    }
  }

  // ---- the protocol ----

  datatype Sent = Sent(sender: Address, app: Address, nonce: nat)

  /** Where a sender is with one application: it holds an answer, or has a transaction forwarded that
      the service has not accounted for yet. */
  datatype Phase = Idle | Answered(nonce: nat) | Forwarded(nonce: nat)

  /** `queue` is what Espresso has and the reader has not consumed, in order. */
  datatype State = State(
    stored: map<NonceKey, nat>, cache: Cache, queue: seq<Sent>, phases: map<NonceKey, Phase>)

  datatype Action =
    | Request(sender: Address, app: Address)
    | Forward(sender: Address, app: Address)
    | ForwardFails(sender: Address, app: Address)
    | Account(sender: Address, app: Address)
    | Consume(app: Address)

  function PhaseOf(s: State, key: NonceKey): Phase {
    if key in s.phases then s.phases[key] else Idle
  }

  /** Where the first transaction for `app` is in the queue, or the end of the queue. */
  function FirstOf(queue: seq<Sent>, app: Address): (n: nat)
    ensures n <= |queue|
    ensures forall k | 0 <= k < n :: queue[k].app != app
    ensures n < |queue| ==> queue[n].app == app
  {
    if queue == [] || queue[0].app == app then 0 else 1 + FirstOf(queue[1..], app)
  }

  predicate Awaited(queue: seq<Sent>, app: Address) {
    FirstOf(queue, app) < |queue|
  }

  /** The transaction the reader comes to next for `app`. It reads for the applications one by one, so
      transactions for others that have come earlier may still be waiting. */
  function NextFor(queue: seq<Sent>, app: Address): Sent
    requires Awaited(queue, app)
  {
    queue[FirstOf(queue, app)]
  }

  function Without(queue: seq<Sent>, app: Address): seq<Sent>
    requires Awaited(queue, app)
  {
    var n := FirstOf(queue, app);
    queue[..n] + queue[n + 1..]
  }

  /** A sender asks before it submits, submits what it was told, and does one thing at a time. */
  predicate Enabled(s: State, a: Action) {
    match a
    case Request(sender, app) => !PhaseOf(s, (sender, app)).Forwarded?
    case Forward(sender, app) => PhaseOf(s, (sender, app)).Answered?
    case ForwardFails(sender, app) => PhaseOf(s, (sender, app)).Answered?
    case Account(sender, app) => PhaseOf(s, (sender, app)).Forwarded?
    case Consume(app) => Awaited(s.queue, app)
  }

  /** The reader takes a transaction only if its nonce is the stored one. */
  predicate PassesNonceCheck(s: State, t: Sent) {
    t.nonce == NonceIn(s.stored, t.sender, t.app)
  }

  function Next(s: State, a: Action): State
    requires Enabled(s, a)
  {
    match a
    case Request(sender, app) =>
      var stored := NonceIn(s.stored, sender, app);
      s.(cache := AfterRequest(s.cache, app, sender, stored),
         phases := s.phases[(sender, app) := Answered(Answer(s.cache, app, sender, stored))])
    case Forward(sender, app) =>
      var nonce := PhaseOf(s, (sender, app)).nonce;
      s.(queue := s.queue + [Sent(sender, app, nonce)],
         phases := s.phases[(sender, app) := Forwarded(nonce)])
    case ForwardFails(sender, app) =>
      s.(phases := s.phases[(sender, app) := Idle])
    case Account(sender, app) =>
      var nonce := PhaseOf(s, (sender, app)).nonce;
      s.(cache := AfterSubmit(s.cache, app, sender, nonce, NonceIn(s.stored, sender, app)),
         phases := s.phases[(sender, app) := Idle])
    case Consume(app) =>
      var t := NextFor(s.queue, app);
      var rest := s.(queue := Without(s.queue, app));
      if PassesNonceCheck(s, t) then rest.(stored := s.stored[(t.sender, t.app) := t.nonce + 1])
      else rest
  }

  /** The nonces of a sender's transactions that are on their way, in order. */
  function Pending(queue: seq<Sent>, sender: Address, app: Address): seq<nat> {
    if queue == [] then []
    else
      var t := queue[|queue| - 1];
      Pending(queue[..|queue| - 1], sender, app)
      + if t.sender == sender && t.app == app then [t.nonce] else []
  }

  /** With d stored and p on their way: these are d .. d+p-1, and the next answer is d+p. */
  predicate InStep(s: State, sender: Address, app: Address) {
    var d, pending := NonceIn(s.stored, sender, app), Pending(s.queue, sender, app);
    var c, p := Cached(s.cache, app, sender), |pending|;
    && CountsFrom(pending, d)
    && (match PhaseOf(s, (sender, app))
        case Idle => if c == 0 then p == 0 else c == d + p
        case Answered(n) => n == d + p && c == n && app in s.cache
        case Forwarded(n) => n + 1 == d + p && c == n && app in s.cache)
  }

  ghost predicate Invariant(s: State) {
    forall sender: Address, app: Address :: InStep(s, sender, app)
  }

  // ---- the queue ----

  lemma PendingLast(queue: seq<Sent>, t: Sent, sender: Address, app: Address)
    ensures Pending(queue + [t], sender, app)
         == Pending(queue, sender, app) + if t.sender == sender && t.app == app then [t.nonce] else []
  {
    assert (queue + [t])[..|queue|] == queue;
  }

  lemma {:induction false} PendingAppend(a: seq<Sent>, b: seq<Sent>, sender: Address, app: Address)
    ensures Pending(a + b, sender, app) == Pending(a, sender, app) + Pending(b, sender, app)
  {
    if b == [] {
      assert a + b == a;
    } else {
      PendingAppend(a, b[..|b| - 1], sender, app);
      PendingLast(a + b[..|b| - 1], b[|b| - 1], sender, app);
      assert a + b == a + b[..|b| - 1] + [b[|b| - 1]];
    }
  }

  lemma {:induction false} PendingNone(queue: seq<Sent>, sender: Address, app: Address)
    requires forall k | 0 <= k < |queue| :: queue[k].app != app
    ensures Pending(queue, sender, app) == []
  {
    if queue != [] {
      PendingNone(queue[..|queue| - 1], sender, app);
    }
  }

  /** Taking out the first transaction for `y` takes the first nonce off its sender's, and nothing off
      anyone else's. */
  lemma PendingWithout(queue: seq<Sent>, y: Address, sender: Address, app: Address)
    requires Awaited(queue, y)
    ensures var t := NextFor(queue, y);
            Pending(queue, sender, app)
              == (if t.sender == sender && t.app == app then [t.nonce] else [])
               + Pending(Without(queue, y), sender, app)
  {
    hide Pending, FirstOf;
    var n := FirstOf(queue, y);
    var a, t, b := queue[..n], queue[n], queue[n + 1..];
    assert queue == a + [t] + b;
    PendingAppend(a + [t], b, sender, app);
    PendingLast(a, t, sender, app);
    PendingAppend(a, b, sender, app);
    if app == y {
      PendingNone(a, sender, app);
    }
  }

  // ---- every step keeps every sender in step ----

  /** What the two handlers change in the cache, and for whom. */
  lemma CacheChanges(cache: Cache, x: Address, y: Address, nonce: nat, stored: nat)
    ensures var after := AfterRequest(cache, y, x, stored);
            && Cached(after, y, x) == Answer(cache, y, x, stored) && y in after
            && (forall s: Address, a: Address | (s, a) != (x, y) ::
                  Cached(after, a, s) == Cached(cache, a, s))
            && (forall a | a in cache :: a in after)
    ensures y in cache ==>
              var after := AfterSubmit(cache, y, x, nonce, stored);
              && Cached(after, y, x)
                   == (if Cached(cache, y, x) != 0 then Cached(cache, y, x) + 1
                       else if nonce == stored then stored + 1 else 0)
              && (forall s: Address, a: Address | (s, a) != (x, y) ::
                    Cached(after, a, s) == Cached(cache, a, s))
              && (forall a | a in cache :: a in after)
  {
  }

  lemma StepKeepsOne(s: State, a: Action, sender: Address, app: Address)
    requires Invariant(s) && Enabled(s, a)
    ensures InStep(Next(s, a), sender, app)
  {
    hide Pending, AfterRequest, AfterSubmit, Put, Cached, Answer, Invariant, InStep, CountsFrom;
    match a {
      case Request(x, y) => RequestKeeps(s, x, y, sender, app);
      case Forward(x, y) => ForwardKeeps(s, x, y, sender, app);
      case ForwardFails(x, y) => ForwardFailsKeeps(s, x, y, sender, app);
      case Account(x, y) => AccountKeeps(s, x, y, sender, app);
      case Consume(y) => ConsumeKeeps(s, y, sender, app);
    }
  }

  lemma RequestKeeps(s: State, x: Address, y: Address, sender: Address, app: Address)
    requires Invariant(s) && Enabled(s, Request(x, y))
    ensures InStep(Next(s, Request(x, y)), sender, app)
  {
    hide Pending, AfterRequest, AfterSubmit, Put, Cached;
    assert InStep(s, sender, app);
    CacheChanges(s.cache, x, y, 0, NonceIn(s.stored, x, y));
  }

  lemma ForwardKeeps(s: State, x: Address, y: Address, sender: Address, app: Address)
    requires Invariant(s) && Enabled(s, Forward(x, y))
    ensures InStep(Next(s, Forward(x, y)), sender, app)
  {
    hide Pending, AfterRequest, AfterSubmit, Put, Cached;
    assert InStep(s, sender, app);
    PendingLast(s.queue, Sent(x, y, PhaseOf(s, (x, y)).nonce), sender, app);
  }

  lemma ForwardFailsKeeps(s: State, x: Address, y: Address, sender: Address, app: Address)
    requires Invariant(s) && Enabled(s, ForwardFails(x, y))
    ensures InStep(Next(s, ForwardFails(x, y)), sender, app)
  {
    hide Pending, AfterRequest, AfterSubmit, Put, Cached;
    assert InStep(s, sender, app);
  }

  /** Also if the reader has consumed the transaction by now: then the service finds the stored nonce
      to be another, and leaves a zero in the cache, which is right again. */
  lemma AccountKeeps(s: State, x: Address, y: Address, sender: Address, app: Address)
    requires Invariant(s) && Enabled(s, Account(x, y))
    ensures InStep(Next(s, Account(x, y)), sender, app)
  {
    hide Pending, AfterRequest, AfterSubmit, Put, Cached;
    assert InStep(s, sender, app) && InStep(s, x, y);
    CacheChanges(s.cache, x, y, PhaseOf(s, (x, y)).nonce, NonceIn(s.stored, x, y));
  }

  lemma ConsumeKeeps(s: State, y: Address, sender: Address, app: Address)
    requires Invariant(s) && Awaited(s.queue, y)
    ensures InStep(Next(s, Consume(y)), sender, app)
  {
    hide Pending, Cached, FirstOf, NextFor, Without;
    assert InStep(s, sender, app);
    NothingFailsTheCheck(s, y);
    PendingWithout(s.queue, y, sender, app);
    var t := NextFor(s.queue, y);
    var before := Pending(s.queue, sender, app);
    var after := Pending(Without(s.queue, y), sender, app);
    if t.sender == sender && t.app == app {
      assert forall k | 0 <= k < |after| :: after[k] == before[k + 1];
    } else {
      assert after == before;
    }
  }

  /** The transaction the reader is about to consume for `app` has the nonce it wants to see. */
  lemma NothingFailsTheCheck(s: State, app: Address)
    requires Invariant(s) && Awaited(s.queue, app)
    ensures PassesNonceCheck(s, NextFor(s.queue, app))
  {
    hide FirstOf, Without;
    var t := NextFor(s.queue, app);
    assert InStep(s, t.sender, t.app);
    PendingWithout(s.queue, app, t.sender, t.app);
    assert Pending(s.queue, t.sender, t.app)[0] == t.nonce;
  }

  ghost predicate Runs(states: seq<State>, actions: seq<Action>) {
    && |states| == |actions| + 1
    && (forall k | 0 <= k < |actions| :: Enabled(states[k], actions[k]))
    && (forall k | 0 <= k < |actions| :: states[k + 1] == Next(states[k], actions[k]))
  }

  /** At every moment of every interleaving, for every sender and application: with d stored and p
      transactions on their way, those have the nonces d .. d+p-1, a sender that asks is answered d+p,
      and the reader turns no transaction down, for whichever application it reads next. */
  lemma {:induction false} NoncesStayInStep(states: seq<State>, actions: seq<Action>, k: nat)
    requires Runs(states, actions) && Invariant(states[0]) && k < |states|
    ensures Invariant(states[k])
    ensures forall app: Address | Awaited(states[k].queue, app) ::
              PassesNonceCheck(states[k], NextFor(states[k].queue, app))
    decreases k
  {
    hide InStep, Awaited, NextFor, PassesNonceCheck;
    if k > 0 {
      NoncesStayInStep(states, actions, k - 1);
      forall sender: Address, app: Address ensures InStep(states[k], sender, app) {
        StepKeepsOne(states[k - 1], actions[k - 1], sender, app);
      }
    }
    forall app: Address | Awaited(states[k].queue, app)
      ensures PassesNonceCheck(states[k], NextFor(states[k].queue, app))
    {
      NothingFailsTheCheck(states[k], app);
    }
  }

  lemma NextAnswer(s: State, sender: Address, app: Address)
    requires Invariant(s) && Enabled(s, Request(sender, app))
    ensures Answer(s.cache, app, sender, NonceIn(s.stored, sender, app))
         == NonceIn(s.stored, sender, app) + |Pending(s.queue, sender, app)|
  {
    assert InStep(s, sender, app);
  }

  /** Nothing asked, nothing on its way: whatever is stored, this is a state to start from. */
  lemma StartsInStep(stored: map<NonceKey, nat>)
    ensures Invariant(State(stored, map[], [], map[]))
  {
  }

  /** Restarting the service empties the cache. A sender that asks then is told the right nonce exactly
      if none of its transactions are still on their way. */
  lemma RestartForgetsPending(s: State, sender: Address, app: Address)
    requires Invariant(s)
    ensures Answer(map[], app, sender, NonceIn(s.stored, sender, app))
         == NonceIn(s.stored, sender, app) + |Pending(s.queue, sender, app)|
       <==> Pending(s.queue, sender, app) == []
  {
  }

  /** `Consume` is what the reader does with the transaction: when its payload is well-formed and its
      store goes through, delivering it leaves the nonces of the next state. */
  lemma ConsumeIsDelivery(world: World, db: Db, s: State, app: Address, h: nat, i: nat)
    requires Awaited(s.queue, app) && i < |world.transactions(h)|
    requires var t, tx := NextFor(s.queue, app), world.transactions(h)[i];
             && tx.Signed? && tx.sender == t.sender && tx.app == t.app && tx.nonce == t.nonce
             && EspressoInput.PayloadBytes(tx.payload).Some?
    requires AppInvariant(world, db, app, world.l1FinalizedHeight(h))
    requires Survives(world.espressoStoreFault(h, i), EspressoInput.ESPRESSO_STORE_STATEMENTS)
    requires db.nonces == s.stored
    ensures EspressoInput.DeliverTx(world, db, app, h, i).nonces == Next(s, Consume(app)).stored
  {
    hide AppInvariant, EspressoInput.DeliverTx, EspressoRefinement.EspressoRow, Dense, Without;
    InvariantBasics(world, db, app, world.l1FinalizedHeight(h));
    EspressoRefinement.DeliverRefines(world, db, app, h, i);
    InvariantBasics(world, EspressoInput.DeliverTx(world, db, app, h, i), app,
                    world.l1FinalizedHeight(h));
  }
}
