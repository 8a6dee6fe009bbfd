/** One application's share of ReadAndStoreInputs (internal/evmreader/input.go) as a step on the
    tables: renumber the batch with the shared counter, cut it into epochs, store it. */
module Ingest {
  import opened Model
  import opened EpochMath
  import opened EpochCut
  import opened Tables
  import opened World
  import EvmAdvanceAbi

  /** With overriding on, an input takes the shared counter as its index, and its calldata is
      rewritten to match unless it cannot be decoded. */
  function Renumbered(input: Input, counter: nat, override: bool): Input {
    if counter == input.index || !override then input
    else
      match EvmAdvanceAbi.ModifyIndexInRaw(input.raw, counter)
      case Some(raw) => input.(index := counter, raw := raw)
      case None => input.(index := counter)
  }

  function RenumberAll(inputs: seq<Input>, counter: nat, override: bool): (r: seq<Input>)
    ensures |r| == |inputs|
  {
    seq(|inputs|, i requires 0 <= i < |inputs| => Renumbered(inputs[i], counter + i, override))
  }

  function AdvanceCounter(db: Db, app: Address, count: nat): Db {
    if count == 0 then db else SetCounter(db, app, Counter(db, app) + count)
  }

  function StoredEpoch(db: Db, app: Address, index: nat): Option<EpochData> {
    if (app, index) in db.epochs then
      var row := db.epochs[(app, index)];
      Some(EpochData(app, index, row.firstBlock, row.lastBlock, row.status))
    else None
  }

  /** The epochs and inputs the batch startBlock .. endBlock is stored as. */
  function BatchEntries(world: World, db: Db, app: Address, startBlock: nat, endBlock: nat)
    : seq<Entry>
    requires world.epochLength(app) >= 1
  {
    var epochLength := world.epochLength(app);
    var stored := StoredEpoch(db, app, CalculateEpochIndex(epochLength, startBlock));
    var inputs := InputsIn(world.inputsAdded, app, startBlock, endBlock);
    CutBatch(app, epochLength, stored,
             RenumberAll(inputs, Counter(db, app), world.shouldModifyIndex), endBlock)
  }

  predicate CurrentEpochIsOpen(world: World, db: Db, app: Address, startBlock: nat)
    requires world.epochLength(app) >= 1
  {
    var stored := StoredEpoch(db, app, CalculateEpochIndex(world.epochLength(app), startBlock));
    stored.Some? ==> stored.value.status == Open
  }

  /** The batch is dropped if the current epoch is not open. The counter moves outside the
      transaction, so it stays moved when the transaction fails. */
  function IngestBatch(world: World, db: Db, app: Address, startBlock: nat, endBlock: nat): Db
    requires world.epochLength(app) >= 1
  {
    if !CurrentEpochIsOpen(world, db, app, startBlock) then db
    else
      var entries := BatchEntries(world, db, app, startBlock, endBlock);
      var inputs := InputsIn(world.inputsAdded, app, startBlock, endBlock);
      var counted := AdvanceCounter(db, app, |inputs|);
      if !Survives(world.inputStoreFault(app, endBlock), |EntriesStmts(entries)| + 2) then counted
      else
        match StoreEntries(counted, entries, endBlock, app)
        case None => counted
        case Some(after) => after
  }

  // ---- what storing well-formed entries does to the tables ----

  /** The row an input becomes when it is stored in the epoch of its block. */
  function RowOf(input: Input, epochLength: nat): InputRow
    requires epochLength >= 1
  {
    InputRow(input.raw, input.block,
             (input.app, CalculateEpochIndex(epochLength, input.block)), input.txId)
  }

  function PutInputs(rows: map<InputKey, InputRow>, inputs: seq<Input>, epochLength: nat)
    : map<InputKey, InputRow>
    requires epochLength >= 1
  {
    if inputs == [] then rows
    else
      var n := |inputs| - 1;
      PutInputs(rows, inputs[..n], epochLength)
        [(inputs[n].app, inputs[n].index) := RowOf(inputs[n], epochLength)]
  }

  function PutEpochs(db: Db, entries: seq<Entry>): Db {
    if entries == [] then db
    else
      var before := PutEpochs(db, entries[..|entries| - 1]);
      var e := entries[|entries| - 1].epoch;
      before.(epochs := before.epochs[KeyOf(e) := UpsertedRow(before, e)])
  }

  /** The inputs are numbered from `base` on. */
  predicate NumberedFrom(inputs: seq<Input>, app: Address, base: nat) {
    forall i | 0 <= i < |inputs| :: inputs[i].app == app && inputs[i].index == base + i
  }

  ghost predicate FreeFrom(db: Db, app: Address, base: nat) {
    forall i: nat | i >= base :: (app, i) !in db.inputs
  }

  lemma {:induction false} PutInputsRows(
    rows: map<InputKey, InputRow>, inputs: seq<Input>, epochLength: nat, app: Address, base: nat)
    requires epochLength >= 1 && NumberedFrom(inputs, app, base)
    ensures forall k: InputKey :: k in PutInputs(rows, inputs, epochLength) <==>
              k in rows || (k.0 == app && base <= k.1 < base + |inputs|)
    ensures forall i | 0 <= i < |inputs| ::
              PutInputs(rows, inputs, epochLength)[(app, base + i)] == RowOf(inputs[i], epochLength)
    ensures forall k | k in rows && !(k.0 == app && base <= k.1 < base + |inputs|) ::
              PutInputs(rows, inputs, epochLength)[k] == rows[k]
  {
    if inputs != [] {
      PutInputsRows(rows, inputs[..|inputs| - 1], epochLength, app, base);
    }
  }

  lemma {:induction false} PutInputsAppend(
    rows: map<InputKey, InputRow>, a: seq<Input>, b: seq<Input>, epochLength: nat)
    requires epochLength >= 1
    ensures PutInputs(PutInputs(rows, a, epochLength), b, epochLength)
         == PutInputs(rows, a + b, epochLength)
  {
    if b == [] {
      assert a + b == a;
    } else {
      var n := |b| - 1;
      assert (a + b)[..|a + b| - 1] == a + b[..n];
      PutInputsAppend(rows, a, b[..n], epochLength);
    }
  }

  /** Storing fresh inputs in the epoch of their blocks. */
  lemma {:induction false} RunInserts(
    db: Db, inputs: seq<Input>, epochLength: nat, app: Address, index: nat, base: nat)
    requires epochLength >= 1 && app in db.apps && (app, index) in db.epochs
    requires NumberedFrom(inputs, app, base) && FreeFrom(db, app, base)
    requires InEpoch(epochLength, inputs, index)
    ensures Run(Some(db), Inserts(inputs, (app, index)))
         == Some(db.(inputs := PutInputs(db.inputs, inputs, epochLength)))
  {
    if inputs != [] {
      var n := |inputs| - 1;
      var stmts := Inserts(inputs, (app, index));
      assert stmts[..n] == Inserts(inputs[..n], (app, index));
      RunInserts(db, inputs[..n], epochLength, app, index, base);
      PutInputsRows(db.inputs, inputs[..n], epochLength, app, base);
      assert inputs[n].index == base + n;
    }
  }

  predicate OfApp(entries: seq<Entry>, app: Address) {
    forall k | 0 <= k < |entries| :: entries[k].epoch.app == app
  }

  predicate InTheirEpochs(entries: seq<Entry>, epochLength: nat)
    requires epochLength >= 1
  {
    forall k | 0 <= k < |entries| :: InEpoch(epochLength, entries[k].inputs, entries[k].epoch.index)
  }

  lemma {:induction false} PutEpochsFrame(db: Db, entries: seq<Entry>)
    ensures PutEpochs(db, entries) == db.(epochs := PutEpochs(db, entries).epochs)
  {
    if entries != [] {
      PutEpochsFrame(db, entries[..|entries| - 1]);
    }
  }

  /** Storing a whole batch of well-formed entries never fails. */
  lemma {:induction false} RunBatch(
    db: Db, entries: seq<Entry>, epochLength: nat, app: Address, base: nat)
    requires epochLength >= 1 && app in db.apps
    requires OfApp(entries, app) && InTheirEpochs(entries, epochLength)
    requires NumberedFrom(AllInputs(entries), app, base) && FreeFrom(db, app, base)
    ensures Run(Some(db), EntriesStmts(entries))
         == Some(PutEpochs(db, entries)
                   .(inputs := PutInputs(db.inputs, AllInputs(entries), epochLength)))
  {
    if entries != [] {
      var front, last := entries[..|entries| - 1], entries[|entries| - 1];
      var before := AllInputs(front);
      assert AllInputs(entries) == before + last.inputs;
      NumberedSplit(before, last.inputs, app, base);
      RunBatch(db, front, epochLength, app, base);
      PutEpochsFrame(db, front);
      var d := PutEpochs(db, front).(inputs := PutInputs(db.inputs, before, epochLength));
      PutInputsRows(db.inputs, before, epochLength, app, base);
      RunEntry(d, last, epochLength, app, base + |before|);
      PutInputsAppend(db.inputs, before, last.inputs, epochLength);
      RunAppend(Some(db), EntriesStmts(front), EntryStmts(last));
    }
  }

  lemma NumberedSplit(a: seq<Input>, b: seq<Input>, app: Address, base: nat)
    requires NumberedFrom(a + b, app, base)
    ensures NumberedFrom(a, app, base) && NumberedFrom(b, app, base + |a|)
  {
    assert forall i | 0 <= i < |a| :: (a + b)[i] == a[i];
    assert forall i | 0 <= i < |b| :: (a + b)[|a| + i] == b[i];
  }

  lemma {:induction false} RunEntry(d: Db, e: Entry, epochLength: nat, app: Address, base: nat)
    requires epochLength >= 1 && app in d.apps && e.epoch.app == app
    requires NumberedFrom(e.inputs, app, base) && FreeFrom(d, app, base)
    requires InEpoch(epochLength, e.inputs, e.epoch.index)
    ensures Run(Some(d), EntryStmts(e))
         == Some(d.(epochs := d.epochs[KeyOf(e.epoch) := UpsertedRow(d, e.epoch)],
                    inputs := PutInputs(d.inputs, e.inputs, epochLength)))
  {
    var upsert, inserts := [UpsertEpoch(e.epoch)], Inserts(e.inputs, KeyOf(e.epoch));
    RunAppend(Some(d), upsert, inserts);
    var d' := d.(epochs := d.epochs[KeyOf(e.epoch) := UpsertedRow(d, e.epoch)]);
    assert Run(Some(d), upsert) == Exec(d, UpsertEpoch(e.epoch)) == Some(d') by {
      assert upsert[..0] == [];
    }
    RunInserts(d', e.inputs, epochLength, app, e.epoch.index, base);
  }

  function EntryKeys(entries: seq<Entry>): set<EpochKey> {
    set k | 0 <= k < |entries| :: KeyOf(entries[k].epoch)
  }

  lemma EntryKeysAppend(front: seq<Entry>, last: Entry)
    ensures EntryKeys(front + [last]) == EntryKeys(front) + {KeyOf(last.epoch)}
  {
    var entries := front + [last];
    forall key ensures key in EntryKeys(entries) <==> key in EntryKeys(front) + {KeyOf(last.epoch)} {
      if key in EntryKeys(front) {
        var k :| 0 <= k < |front| && key == KeyOf(front[k].epoch);
        assert entries[k] == front[k];
      }
      if key == KeyOf(last.epoch) {
        assert entries[|front|] == last;
      }
    }
  }

  /** Which epochs there are after a batch, and which rows it leaves alone. */
  lemma {:induction false} PutEpochsKeys(db: Db, entries: seq<Entry>)
    ensures PutEpochs(db, entries).epochs.Keys == db.epochs.Keys + EntryKeys(entries)
    ensures forall key | key in db.epochs && key !in EntryKeys(entries) ::
              PutEpochs(db, entries).epochs[key] == db.epochs[key]
  {
    if entries != [] {
      var front, last := entries[..|entries| - 1], entries[|entries| - 1];
      PutEpochsKeys(db, front);
      assert entries == front + [last];
      EntryKeysAppend(front, last);
    }
  }

  predicate IndicesStrictlyRise(entries: seq<Entry>) {
    forall j, k | 0 <= j < k < |entries| :: entries[j].epoch.index < entries[k].epoch.index
  }

  /** The row of an epoch of the batch. */
  lemma {:induction false} PutEpochsRow(db: Db, entries: seq<Entry>, k: nat)
    requires IndicesStrictlyRise(entries) && k < |entries|
    ensures KeyOf(entries[k].epoch) in PutEpochs(db, entries).epochs
    ensures PutEpochs(db, entries).epochs[KeyOf(entries[k].epoch)]
         == UpsertedRow(db, entries[k].epoch)
  {
    var front, last := entries[..|entries| - 1], entries[|entries| - 1];
    var e := entries[k].epoch;
    if k < |front| {
      PutEpochsRow(db, front, k);
      assert front[k] == entries[k];
    } else {
      PutEpochsKeys(db, front);
      assert KeyOf(e) !in EntryKeys(front);
    }
  }
}
