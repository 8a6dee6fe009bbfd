/** Output execution (internal/evmreader/output.go, internal/repository/evmreader.go).

    A pass reads the OutputExecuted events of a block range. If the store knows every one of those
    outputs, it marks them all and moves the cursor to the end of the range, in one transaction. */
module Outputs {
  import opened Model
  import opened Tables
  import opened World

  /** The events of `app` in a block range, in the order of `events`. */
  function OutputsIn(events: seq<OutputExecuted>, app: Address, startBlock: nat, endBlock: nat)
    : seq<OutputExecuted>
  {
    if events == [] then []
    else
      var e := events[|events| - 1];
      var front := OutputsIn(events[..|events| - 1], app, startBlock, endBlock);
      if e.app == app && startBlock <= e.block <= endBlock then front + [e] else front
  }

  lemma {:induction false} OutputsInMembers(
    events: seq<OutputExecuted>, app: Address, startBlock: nat, endBlock: nat)
    ensures forall x :: x in OutputsIn(events, app, startBlock, endBlock) <==>
              x in events && x.app == app && startBlock <= x.block <= endBlock
  {
    if events != [] {
      var front, e := events[..|events| - 1], events[|events| - 1];
      OutputsInMembers(front, app, startBlock, endBlock);
      assert events == front + [e];
    }
  }

  /** The store has this output with these bytes. */
  predicate Known(outputs: map<OutputKey, OutputRow>, e: OutputExecuted) {
    (e.app, e.outputIndex) in outputs && outputs[(e.app, e.outputIndex)].raw == e.output
  }

  function MarkOutputs(outputs: map<OutputKey, OutputRow>, events: seq<OutputExecuted>)
    : map<OutputKey, OutputRow>
    requires forall e | e in events :: Known(outputs, e)
  {
    if events == [] then outputs
    else
      var front, e := events[..|events| - 1], events[|events| - 1];
      assert Known(outputs, e);
      MarkOutputs(outputs, front)[(e.app, e.outputIndex) :=
        outputs[(e.app, e.outputIndex)].(txHash := Some(e.txHash))]
  }

  /** UPDATE the hashes of outputs, one after the other. A row that is not there is an error. */
  function RecordHashes(outputs: map<OutputKey, OutputRow>, updates: seq<(OutputKey, Option<Hash>)>)
    : Option<map<OutputKey, OutputRow>>
  {
    if updates == [] then Some(outputs)
    else
      var u := updates[|updates| - 1];
      match RecordHashes(outputs, updates[..|updates| - 1])
      case None => None
      case Some(m) => if u.0 !in m then None else Some(m[u.0 := m[u.0].(txHash := u.1)])
  }

  function HashUpdates(events: seq<OutputExecuted>): (r: seq<(OutputKey, Option<Hash>)>)
    ensures |r| == |events|
  {
    seq(|events|, i requires 0 <= i < |events| =>
      ((events[i].app, events[i].outputIndex), Some(events[i].txHash)))
  }

  /** The updates for known outputs succeed, and are what `MarkOutputs` says. */
  lemma {:induction false} KnownOutputsAreMarked(
    outputs: map<OutputKey, OutputRow>, events: seq<OutputExecuted>)
    requires forall e | e in events :: Known(outputs, e)
    ensures RecordHashes(outputs, HashUpdates(events)) == Some(MarkOutputs(outputs, events))
    ensures MarkOutputs(outputs, events).Keys == outputs.Keys
    ensures forall key | key in outputs ::
              MarkOutputs(outputs, events)[key].raw == outputs[key].raw
  {
    if events != [] {
      var front, e := events[..|events| - 1], events[|events| - 1];
      assert Known(outputs, e);
      KnownOutputsAreMarked(outputs, front);
      assert HashUpdates(events)[..|events| - 1] == HashUpdates(front);
    }
  }

  function SetOutputCheckBlock(db: Db, app: Address, block: nat): Db {
    if app in db.apps
    then db.(apps := db.apps[app := db.apps[app].(lastOutputCheckBlock := block)])
    else db
  }

  /** Where a pass begins. There is no minus one here, unlike for inputs and claims. */
  function OutputStart(world: World, lastOutputCheck: nat): nat {
    if lastOutputCheck < world.inputBoxDeploymentBlock then world.inputBoxDeploymentBlock
    else lastOutputCheck
  }

  /** CheckForOutputExecution for one application, from a snapshot of its cursor. */
  function CheckOutputs(world: World, db: Db, app: Address, lastOutputCheck: nat, mostRecent: nat): Db
  {
    var start := OutputStart(world, lastOutputCheck);
    if mostRecent <= start then db
    else
      var events := OutputsIn(world.outputsExecuted, app, start + 1, mostRecent);
      if (exists e | e in events :: !Known(db.outputs, e)) || world.outputUpdateFails(app, mostRecent)
      then db
      else SetOutputCheckBlock(db.(outputs := MarkOutputs(db.outputs, events)), app, mostRecent)
  }

  // ---- what a pass does ----

  /** `hash` is the transaction of an execution of this output after `start`. */
  predicate ExecutedBy(events: seq<OutputExecuted>, key: OutputKey, hash: Hash, start: nat) {
    exists e | e in events :: (e.app, e.outputIndex) == key && e.txHash == hash && start < e.block
  }

  /** Exactly the outputs that have an event are marked, each with the hash of one of its events. */
  lemma {:induction false} MarkedByEvents(
    outputs: map<OutputKey, OutputRow>, events: seq<OutputExecuted>, start: nat)
    requires forall e | e in events :: Known(outputs, e) && start < e.block
    ensures var after := MarkOutputs(outputs, events);
            && after.Keys == outputs.Keys
            && (forall key | key in outputs :: after[key].raw == outputs[key].raw)
            && (forall key | key in outputs && after[key] != outputs[key] ::
                  after[key].txHash.Some?
                  && ExecutedBy(events, key, after[key].txHash.value, start))
            && (forall e | e in events ::
                  var key := (e.app, e.outputIndex);
                  after[key].txHash.Some?
                  && ExecutedBy(events, key, after[key].txHash.value, start))
  {
    if events != [] {
      var front, e := events[..|events| - 1], events[|events| - 1];
      assert events == front + [e] && e in events;
      MarkedByEvents(outputs, front, start);
      var before, after := MarkOutputs(outputs, front), MarkOutputs(outputs, events);
      forall key, hash | ExecutedBy(front, key, hash, start)
        ensures ExecutedBy(events, key, hash, start)
      {
        var x :| x in front && (x.app, x.outputIndex) == key && x.txHash == hash && start < x.block;
        assert x in events;
      }
      assert ExecutedBy(events, (e.app, e.outputIndex), e.txHash, start);
    }
  }

  /** Which events a pass from this snapshot is about. */
  predicate InPass(
    world: World, app: Address, lastOutputCheck: nat, mostRecent: nat, e: OutputExecuted)
  {
    e in world.outputsExecuted && e.app == app
    && OutputStart(world, lastOutputCheck) < e.block <= mostRecent
  }

  /** A reason for a pass to do nothing. */
  ghost predicate Blocked(
    world: World, outputs: map<OutputKey, OutputRow>, app: Address, lastOutputCheck: nat,
    mostRecent: nat)
  {
    || mostRecent <= OutputStart(world, lastOutputCheck)
    || world.outputUpdateFails(app, mostRecent)
    || exists e | InPass(world, app, lastOutputCheck, mostRecent, e) :: !Known(outputs, e)
  }

  /** Every output executed in the range is marked, and no other has changed. */
  ghost predicate MarkedThrough(
    world: World, before: map<OutputKey, OutputRow>, after: map<OutputKey, OutputRow>, app: Address,
    lastOutputCheck: nat, mostRecent: nat)
  {
    && after.Keys == before.Keys
    && (forall e | InPass(world, app, lastOutputCheck, mostRecent, e) :: Marked(world, after, e))
    && (forall key | key in before && after[key] != before[key] ::
          && key.0 == app
          && after[key].txHash.Some?
          && after[key] == before[key].(txHash := after[key].txHash)
          && ExecutedBy(world.outputsExecuted, key, after[key].txHash.value,
                        OutputStart(world, lastOutputCheck)))
  }

  /** A pass does everything or nothing. One event whose output is missing or different, or a failed
      update, and the tables are as before; otherwise every output executed in the range has its
      bytes confirmed and carries the hash of an execution in the range, no other output has changed,
      and the cursor is at the end of the range. */
  lemma PassIsAllOrNothing(
    world: World, db: Db, app: Address, lastOutputCheck: nat, mostRecent: nat)
    requires app in db.apps
    ensures var after := CheckOutputs(world, db, app, lastOutputCheck, mostRecent);
            if Blocked(world, db.outputs, app, lastOutputCheck, mostRecent) then after == db
            else
              && after == db.(outputs := after.outputs, apps := after.apps)
              && after.apps == db.apps[app := db.apps[app].(lastOutputCheckBlock := mostRecent)]
              && MarkedThrough(world, db.outputs, after.outputs, app, lastOutputCheck, mostRecent)
  {
    hide OutputsIn, Known, InPass, Marked, ExecutedBy, OutputStart;
    var start := OutputStart(world, lastOutputCheck);
    var events := OutputsIn(world.outputsExecuted, app, start + 1, mostRecent);
    EventsOfPass(world, app, lastOutputCheck, mostRecent);
    if !Blocked(world, db.outputs, app, lastOutputCheck, mostRecent) {
      forall e | e in events ensures Known(db.outputs, e) && start < e.block && e.app == app {
      }
      assert world.inputBoxDeploymentBlock <= start by { StartAfterDeployment(world, lastOutputCheck); }
      MarkedInPass(world, db.outputs, app, events, start);
    }
  }

  lemma StartAfterDeployment(world: World, lastOutputCheck: nat)
    ensures world.inputBoxDeploymentBlock <= OutputStart(world, lastOutputCheck)
  {
  }

  lemma EventsOfPass(world: World, app: Address, lastOutputCheck: nat, mostRecent: nat)
    ensures var start := OutputStart(world, lastOutputCheck);
            var events := OutputsIn(world.outputsExecuted, app, start + 1, mostRecent);
            forall e :: (e in events <==> InPass(world, app, lastOutputCheck, mostRecent, e))
              && (e in events ==> e.app == app && start < e.block && e in world.outputsExecuted)
  {
    OutputsInMembers(world.outputsExecuted, app, OutputStart(world, lastOutputCheck) + 1, mostRecent);
  }

  lemma MarkedInPass(
    world: World, outputs: map<OutputKey, OutputRow>, app: Address, events: seq<OutputExecuted>,
    start: nat)
    requires world.inputBoxDeploymentBlock <= start
    requires forall e | e in events ::
               Known(outputs, e) && start < e.block && e.app == app && e in world.outputsExecuted
    ensures var after := MarkOutputs(outputs, events);
            && after.Keys == outputs.Keys
            && (forall e | e in events :: Marked(world, after, e))
            && (forall key | key in outputs && after[key] != outputs[key] ::
                  && key.0 == app
                  && after[key].txHash.Some?
                  && after[key] == outputs[key].(txHash := after[key].txHash)
                  && ExecutedBy(world.outputsExecuted, key, after[key].txHash.value, start))
  {
    MarkedByEvents(outputs, events, start);
    forall key, hash | ExecutedBy(events, key, hash, start)
      ensures key.0 == app && ExecutedBy(world.outputsExecuted, key, hash, start)
    {
      var x :| x in events && (x.app, x.outputIndex) == key && x.txHash == hash && start < x.block;
      assert x in world.outputsExecuted;
    }
    LaterExecution(world, app, start);
  }

  /** The output has the event's bytes and the hash of one of its executions that passes look at. */
  predicate Marked(world: World, outputs: map<OutputKey, OutputRow>, e: OutputExecuted) {
    var key := (e.app, e.outputIndex);
    && Known(outputs, e)
    && outputs[key].txHash.Some?
    && ExecutedBy(world.outputsExecuted, key, outputs[key].txHash.value,
                  world.inputBoxDeploymentBlock)
  }

  lemma LaterExecution(world: World, app: Address, start: nat)
    requires world.inputBoxDeploymentBlock <= start
    ensures forall key, hash | ExecutedBy(world.outputsExecuted, key, hash, start) ::
              ExecutedBy(world.outputsExecuted, key, hash, world.inputBoxDeploymentBlock)
  {
    forall key, hash | ExecutedBy(world.outputsExecuted, key, hash, start)
      ensures ExecutedBy(world.outputsExecuted, key, hash, world.inputBoxDeploymentBlock)
    {
      var x :| x in world.outputsExecuted && (x.app, x.outputIndex) == key && x.txHash == hash
        && start < x.block;
    }
  }

  // ---- the cursor is complete ----

  /** Every execution after the deployment block and up to the cursor has its output marked. */
  ghost predicate OutputCursorComplete(world: World, db: Db, app: Address) {
    && app in db.apps
    && forall e | e in world.outputsExecuted && e.app == app
           && world.inputBoxDeploymentBlock < e.block <= db.apps[app].lastOutputCheckBlock ::
         Marked(world, db.outputs, e)
  }

  /** Kept by every pass, also when a stale snapshot of the cursor is used again and again: nothing is
      asked of the snapshot but that the stored cursor has not fallen below it, and that is kept too. */
  lemma CheckOutputsKeepsComplete(
    world: World, db: Db, app: Address, lastOutputCheck: nat, mostRecent: nat)
    requires OutputCursorComplete(world, db, app)
    requires lastOutputCheck <= db.apps[app].lastOutputCheckBlock
    ensures var after := CheckOutputs(world, db, app, lastOutputCheck, mostRecent);
            && OutputCursorComplete(world, after, app)
            && lastOutputCheck <= after.apps[app].lastOutputCheckBlock
  {
    var after := CheckOutputs(world, db, app, lastOutputCheck, mostRecent);
    PassIsAllOrNothing(world, db, app, lastOutputCheck, mostRecent);
    if after != db {
      LaterExecution(world, app, OutputStart(world, lastOutputCheck));
      forall e | e in world.outputsExecuted && e.app == app
          && world.inputBoxDeploymentBlock < e.block <= mostRecent
        ensures Marked(world, after.outputs, e)
      {
        if !InPass(world, app, lastOutputCheck, mostRecent, e) {
          assert Marked(world, db.outputs, e);
        }
      }
    }
  }

  /** With one execution per output the hash in the store is that execution's. */
  lemma MarkedWithItsHash(world: World, outputs: map<OutputKey, OutputRow>, e: OutputExecuted)
    requires Marked(world, outputs, e) && e in world.outputsExecuted
    requires forall x, y | x in world.outputsExecuted && y in world.outputsExecuted
               && x.app == y.app && x.outputIndex == y.outputIndex :: x == y
    ensures outputs[(e.app, e.outputIndex)].txHash == Some(e.txHash)
  {
  }

  // ---- the deployment block itself ----

  /** An execution at the deployment block, with its output waiting in the store, is never looked at:
      whatever passes run, the output stays unmarked while the cursor goes past the block. */
  lemma {:induction false} DeploymentBlockIsSkipped(
    world: World, db: Db, app: Address, passes: seq<(nat, nat)>, e: OutputExecuted)
    requires app in db.apps && e.app == app && e.block <= world.inputBoxDeploymentBlock
    requires e in world.outputsExecuted && Known(db.outputs, e)
    requires db.outputs[(app, e.outputIndex)].txHash == None
    requires forall x | x in world.outputsExecuted && x.app == app
               && x.outputIndex == e.outputIndex :: x == e
    ensures var after := CheckAgain(world, db, app, passes);
            && app in after.apps
            && after.outputs.Keys == db.outputs.Keys
            && after.outputs[(app, e.outputIndex)] == db.outputs[(app, e.outputIndex)]
  {
    if passes != [] {
      var front, p := passes[..|passes| - 1], passes[|passes| - 1];
      DeploymentBlockIsSkipped(world, db, app, front, e);
      PassIsAllOrNothing(world, CheckAgain(world, db, app, front), app, p.0, p.1);
    }
  }

  /** Output passes from snapshots .0 to heights .1. */
  function CheckAgain(world: World, db: Db, app: Address, passes: seq<(nat, nat)>): Db {
    if passes == [] then db
    else
      var p := passes[|passes| - 1];
      CheckOutputs(world, CheckAgain(world, db, app, passes[..|passes| - 1]), app, p.0, p.1)
  }
}
