/** What one application's part of the tables records: the input log by index, the epochs there are,
    and the nonces. Epoch statuses, claims and outputs are left out.

    The invariant `AppInvariant` is kept by every step of the reader, and under it a step on the
    tables amounts to appending to the log. */
module Ledger {
  import opened Model
  import opened EpochMath
  import opened Tables
  import opened World
  import opened Ingest

  datatype Ledger = Ledger(log: seq<InputRow>, epochs: set<nat>, nonces: map<NonceKey, nat>)

  /** The stored indices are 0 .. n-1, and the counter is n. */
  ghost predicate Dense(db: Db, app: Address) {
    forall i: nat :: (app, i) in db.inputs <==> i < Counter(db, app)
  }

  ghost predicate CanonicalWindows(world: World, db: Db, app: Address) {
    forall key | key in db.epochs && key.0 == app ::
      && db.epochs[key].firstBlock == FirstBlock(world.epochLength(app), key.1)
      && db.epochs[key].lastBlock == LastBlock(world.epochLength(app), key.1)
  }

  /** Every stored epoch from the one of the next block on is open. */
  ghost predicate Horizon(world: World, db: Db, app: Address, cursor: nat)
    requires world.epochLength(app) >= 1
  {
    forall key | key in db.epochs && key.0 == app
        && key.1 >= CalculateEpochIndex(world.epochLength(app), cursor + 1) ::
      db.epochs[key].status == Open
  }

  /** Every stored input refers to a stored epoch of its application. */
  ghost predicate Linked(db: Db, app: Address) {
    forall key | key in db.inputs && key.0 == app ::
      db.inputs[key].epoch in db.epochs && db.inputs[key].epoch.0 == app
  }

  ghost predicate AppInvariant(world: World, db: Db, app: Address, cursor: nat) {
    && world.epochLength(app) >= 1
    && app in db.apps
    && Dense(db, app)
    && CanonicalWindows(world, db, app)
    && Horizon(world, db, app, cursor)
    && Linked(db, app)
  }

  lemma InvariantBasics(world: World, db: Db, app: Address, cursor: nat)
    requires AppInvariant(world, db, app, cursor)
    ensures world.epochLength(app) >= 1 && app in db.apps && Dense(db, app)
  {
  }

  ghost function InputKeys(db: Db, app: Address): set<InputKey> {
    set key | key in db.inputs && key.0 == app
  }

  function FirstKeys(app: Address, n: nat): set<InputKey> {
    set i | 0 <= i < n :: (app, i)
  }

  lemma {:induction false} CountFirstKeys(app: Address, n: nat)
    ensures |FirstKeys(app, n)| == n
  {
    if n > 0 {
      CountFirstKeys(app, n - 1);
      assert FirstKeys(app, n) == FirstKeys(app, n - 1) + {(app, n - 1)};
    }
  }

  /** The counter is the number of inputs stored for the application, and the first index that is
      free. */
  lemma CounterCountsInputs(db: Db, app: Address)
    requires Dense(db, app)
    ensures Counter(db, app) == |InputKeys(db, app)|
    ensures (app, Counter(db, app)) !in db.inputs
    ensures forall i: nat | (app, i) !in db.inputs :: Counter(db, app) <= i
  {
    var n := Counter(db, app);
    CountFirstKeys(app, n);
    forall key: InputKey ensures key in InputKeys(db, app) <==> key in FirstKeys(app, n) {
      if key.0 == app {
        assert key == (app, key.1);
      }
    }
    assert InputKeys(db, app) == FirstKeys(app, n);
  }

  ghost function EpochsOf(db: Db, app: Address): set<nat> {
    set key | key in db.epochs && key.0 == app :: key.1
  }

  ghost function LedgerOf(db: Db, app: Address): Ledger
    requires Dense(db, app)
  {
    Ledger(seq(Counter(db, app), i requires 0 <= i < Counter(db, app) => db.inputs[(app, i)]),
           EpochsOf(db, app),
           db.nonces)
  }

  ghost predicate SameEpochsElsewhere(before: Db, after: Db, app: Address) {
    forall k: EpochKey | k.0 != app ::
      (k in before.epochs <==> k in after.epochs)
      && (k in before.epochs ==> before.epochs[k] == after.epochs[k])
  }

  ghost predicate SameInputsElsewhere(before: Db, after: Db, app: Address) {
    forall k: InputKey | k.0 != app ::
      (k in before.inputs <==> k in after.inputs)
      && (k in before.inputs ==> before.inputs[k] == after.inputs[k])
  }

  /** Nothing that belongs to another application has changed. */
  ghost predicate SameElsewhere(before: Db, after: Db, app: Address) {
    && before.apps - {app} == after.apps - {app}
    && SameEpochsElsewhere(before, after, app)
    && SameInputsElsewhere(before, after, app)
    && before.counters - {app} == after.counters - {app}
  }

  function RowsOf(inputs: seq<Input>, epochLength: nat): (r: seq<InputRow>)
    requires epochLength >= 1
    ensures |r| == |inputs|
  {
    seq(|inputs|, i requires 0 <= i < |inputs| => RowOf(inputs[i], epochLength))
  }

  function EpochIndices(inputs: seq<Input>, epochLength: nat): set<nat>
    requires epochLength >= 1
  {
    set i | 0 <= i < |inputs| :: CalculateEpochIndex(epochLength, inputs[i].block)
  }

  /** Append the InputBox inputs of the blocks after `from` up to `to`. */
  function L1Advance(world: World, app: Address, l: Ledger, from: nat, to: nat): Ledger
    requires world.epochLength(app) >= 1
  {
    if to <= from then l
    else
      var inputs := InputsIn(world.inputsAdded, app, from + 1, to);
      var renumbered := RenumberAll(inputs, |l.log|, world.shouldModifyIndex);
      l.(log := l.log + RowsOf(renumbered, world.epochLength(app)),
         epochs := l.epochs + EpochIndices(inputs, world.epochLength(app)))
  }

  // ---- appending in two goes ----

  lemma L1AdvanceTwice(world: World, app: Address, l: Ledger, from: nat, middle: nat, to: nat)
    requires world.epochLength(app) >= 1 && ChainOrdered(world.inputsAdded, app)
    requires from <= middle <= to
    ensures L1Advance(world, app, L1Advance(world, app, l, from, middle), middle, to)
         == L1Advance(world, app, l, from, to)
  {
    if from < middle < to {
      var epochLength := world.epochLength(app);
      InputsInSplit(world.inputsAdded, app, from + 1, middle, to);
      var a := InputsIn(world.inputsAdded, app, from + 1, middle);
      var b := InputsIn(world.inputsAdded, app, middle + 1, to);
      RowsAppend(a, b, |l.log|, world.shouldModifyIndex, epochLength);
      EpochIndicesAppend(a, b, epochLength);
      var ra := RowsOf(RenumberAll(a, |l.log|, world.shouldModifyIndex), epochLength);
      var rb := RowsOf(RenumberAll(b, |l.log| + |a|, world.shouldModifyIndex), epochLength);
      assert l.log + ra + rb == l.log + (ra + rb);
      assert l.epochs + EpochIndices(a, epochLength) + EpochIndices(b, epochLength)
          == l.epochs + EpochIndices(a + b, epochLength);
    }
  }

  lemma RowsAppend(a: seq<Input>, b: seq<Input>, base: nat, override: bool, epochLength: nat)
    requires epochLength >= 1
    ensures RowsOf(RenumberAll(a + b, base, override), epochLength)
         == RowsOf(RenumberAll(a, base, override), epochLength)
          + RowsOf(RenumberAll(b, base + |a|, override), epochLength)
  {
  }

  lemma EpochIndicesAppend(a: seq<Input>, b: seq<Input>, epochLength: nat)
    requires epochLength >= 1
    ensures EpochIndices(a + b, epochLength)
         == EpochIndices(a, epochLength) + EpochIndices(b, epochLength)
  {
    var ab := a + b;
    forall x ensures x in EpochIndices(ab, epochLength) <==>
        x in EpochIndices(a, epochLength) + EpochIndices(b, epochLength) {
      if x in EpochIndices(a, epochLength) {
        var i :| 0 <= i < |a| && x == CalculateEpochIndex(epochLength, a[i].block);
        assert ab[i] == a[i];
      }
      if x in EpochIndices(b, epochLength) {
        var i :| 0 <= i < |b| && x == CalculateEpochIndex(epochLength, b[i].block);
        assert ab[|a| + i] == b[i];
      }
    }
  }
}
