/** Whole runs over Espresso blocks, on the ledger of one application
    (internal/espressoreader/espresso_reader.go, Run and bootstrap).

    In sync, the reader takes every block: first the base-layer inputs up to the finalized height the
    block names, then the block's transactions. Bootstrapping does so only at blocks whose namespace
    table has the namespace. */
module CatchUp {
  import opened Model
  import opened Tables
  import opened World
  import opened Ingest
  import opened Ledger
  import opened IngestRefinement
  import opened EspressoInput
  import opened EspressoRefinement
  import NamespaceTable

  datatype Progress = Progress(ledger: Ledger, cursor: nat)

  function VisitBlock(world: World, app: Address, p: Progress, h: nat): Progress
    requires world.epochLength(app) >= 1
  {
    var f := world.l1FinalizedHeight(h);
    Progress(LedgerDeliverBlock(world, app, L1Advance(world, app, p.ledger, p.cursor, f), h), f)
  }

  /** The namespace is compared as a uint32. */
  predicate TableHas(world: World, table: Bytes) {
    NamespaceTable.Readable(table)
    && world.namespace % NamespaceTable.TWO_TO_32 in NamespaceTable.NamespacesIn(table)
  }

  predicate HasNamespace(world: World, h: nat) {
    TableHas(world, world.namespaceTable(h))
  }

  /** Blocks from .. until-1, every one of them. */
  function InSync(world: World, app: Address, p: Progress, from: nat, until: nat): Progress
    requires world.epochLength(app) >= 1
    decreases until
  {
    if until <= from then p
    else VisitBlock(world, app, InSync(world, app, p, from, until - 1), until - 1)
  }

  /** Blocks from .. until-1, only those with the namespace. */
  function Bootstrapped(world: World, app: Address, p: Progress, from: nat, until: nat): Progress
    requires world.epochLength(app) >= 1
    decreases until
  {
    if until <= from then p
    else
      var before := Bootstrapped(world, app, p, from, until - 1);
      if HasNamespace(world, until - 1) then VisitBlock(world, app, before, until - 1) else before
  }

  /** The finalized height never falls, and does not start below the cursor. */
  ghost predicate HeightsRise(world: World, cursor: nat, from: nat, until: nat) {
    && (forall h | from <= h < until :: cursor <= world.l1FinalizedHeight(h))
    && (forall g, h | from <= g < h < until ::
          world.l1FinalizedHeight(g) <= world.l1FinalizedHeight(h))
  }

  /** A block without the namespace has none of its transactions. */
  ghost predicate TablesComplete(world: World, from: nat, until: nat) {
    forall h | from <= h < until && !HasNamespace(world, h) :: world.transactions(h) == []
  }

  /** Bootstrapping gets there: what the in-sync loop has is what bootstrapping has, plus the
      base-layer inputs it has not looked at since the last block with the namespace. */
  lemma {:induction false} BootstrapRefinesInSync(
    world: World, app: Address, p: Progress, from: nat, until: nat)
    requires GoodWorld(world, app)
    requires HeightsRise(world, p.cursor, from, until) && TablesComplete(world, from, until)
    ensures var b := Bootstrapped(world, app, p, from, until);
            var s := InSync(world, app, p, from, until);
            && p.cursor <= b.cursor <= s.cursor
            && s.cursor == (if from < until then world.l1FinalizedHeight(until - 1) else p.cursor)
            && s.ledger == L1Advance(world, app, b.ledger, b.cursor, s.cursor)
            && (from < until && HasNamespace(world, until - 1) ==> b == s)
    decreases until
  {
    if from < until {
      var h := until - 1;
      var f := world.l1FinalizedHeight(h);
      BootstrapRefinesInSync(world, app, p, from, h);
      var b := Bootstrapped(world, app, p, from, h);
      var s := InSync(world, app, p, from, h);
      L1AdvanceTwice(world, app, b.ledger, b.cursor, s.cursor, f);
    }
  }

  predicate FromBox(row: InputRow) {
    row.txId.FromInputBox?
  }

  /** The input log bootstrapping builds is a prefix of the in-sync one; what is missing are only
      base-layer inputs; and nothing is missing if the last block has the namespace. */
  lemma BootstrapLogIsPrefix(world: World, app: Address, p: Progress, from: nat, until: nat)
    requires GoodWorld(world, app)
    requires HeightsRise(world, p.cursor, from, until) && TablesComplete(world, from, until)
    ensures var b := Bootstrapped(world, app, p, from, until).ledger;
            var s := InSync(world, app, p, from, until).ledger;
            && b.log <= s.log
            && (forall i | |b.log| <= i < |s.log| :: FromBox(s.log[i]))
            && b.epochs <= s.epochs && b.nonces == s.nonces
            && (from < until && HasNamespace(world, until - 1) ==> b == s)
  {
    BootstrapRefinesInSync(world, app, p, from, until);
    var b := Bootstrapped(world, app, p, from, until);
    L1AdvanceAppendsBox(world, app, b.ledger, b.cursor, InSync(world, app, p, from, until).cursor);
  }

  lemma L1AdvanceAppendsBox(world: World, app: Address, l: Ledger, from: nat, to: nat)
    requires world.epochLength(app) >= 1
    ensures var r := L1Advance(world, app, l, from, to);
            && l.log <= r.log && l.epochs <= r.epochs && r.nonces == l.nonces
            && (forall i | |l.log| <= i < |r.log| ::
                  FromBox(r.log[i]) && from < r.log[i].block <= to)
  {
    if from < to {
      var inputs := InputsIn(world.inputsAdded, app, from + 1, to);
      InputsInMembers(world.inputsAdded, app, from + 1, to);
      forall i | 0 <= i < |inputs| ensures inputs[i].txId.FromInputBox? {
        assert inputs[i] in inputs;
      }
    }
  }

  // ---- the combined order ----

  /** Inputs are numbered by block, and at one block the base layer's come before Espresso's. */
  ghost predicate LogOrdered(log: seq<InputRow>) {
    forall i, j | 0 <= i < j < |log| ::
      && log[i].block <= log[j].block
      && (!FromBox(log[i]) && FromBox(log[j]) ==> log[i].block < log[j].block)
  }

  ghost predicate LogUpTo(log: seq<InputRow>, cursor: nat) {
    forall i | 0 <= i < |log| :: log[i].block <= cursor
  }

  lemma L1AdvanceKeepsOrder(world: World, app: Address, l: Ledger, from: nat, to: nat)
    requires GoodWorld(world, app)
    requires LogOrdered(l.log) && LogUpTo(l.log, from) && from <= to
    ensures LogOrdered(L1Advance(world, app, l, from, to).log)
    ensures LogUpTo(L1Advance(world, app, l, from, to).log, to)
  {
    if from < to {
      var rows := NewRows(world, app, |l.log|, from, to);
      assert L1Advance(world, app, l, from, to).log == l.log + rows;
      NewRowsRise(world, app, |l.log|, from, to);
      OrderedAppend(l.log, rows, from);
    }
  }

  function NewRows(world: World, app: Address, base: nat, from: nat, to: nat): seq<InputRow>
    requires world.epochLength(app) >= 1
  {
    RowsOf(RenumberAll(InputsIn(world.inputsAdded, app, from + 1, to), base,
                       world.shouldModifyIndex), world.epochLength(app))
  }

  lemma AdvancedLog(world: World, app: Address, l: Ledger, from: nat, to: nat)
    requires world.epochLength(app) >= 1 && from < to
    ensures L1Advance(world, app, l, from, to).log == l.log + NewRows(world, app, |l.log|, from, to)
  {
  }

  lemma NewRowsRise(world: World, app: Address, base: nat, from: nat, to: nat)
    requires GoodWorld(world, app)
    ensures var rows := NewRows(world, app, base, from, to);
            && (forall i | 0 <= i < |rows| :: from < rows[i].block <= to && FromBox(rows[i]))
            && (forall i, j | 0 <= i < j < |rows| :: rows[i].block <= rows[j].block)
  {
    var inputs := InputsIn(world.inputsAdded, app, from + 1, to);
    InputsInRise(world.inputsAdded, app, from + 1, to);
    InputsInMembers(world.inputsAdded, app, from + 1, to);
    InputsComeFromBox(world, app, from + 1, to);
    var rows := NewRows(world, app, base, from, to);
    assert forall i | 0 <= i < |rows| ::
        rows[i].block == inputs[i].block && rows[i].txId == inputs[i].txId;
  }

  lemma OrderedAppend(log: seq<InputRow>, rows: seq<InputRow>, cursor: nat)
    requires LogOrdered(log) && LogUpTo(log, cursor)
    requires forall i | 0 <= i < |rows| :: cursor < rows[i].block && FromBox(rows[i])
    requires forall i, j | 0 <= i < j < |rows| :: rows[i].block <= rows[j].block
    ensures LogOrdered(log + rows)
  {
  }

  lemma DeliverKeepsOrder(world: World, app: Address, l: Ledger, h: nat, i: nat)
    requires world.epochLength(app) >= 1 && i < |world.transactions(h)|
    requires LogOrdered(l.log) && LogUpTo(l.log, world.l1FinalizedHeight(h))
    ensures LogOrdered(LedgerDeliver(world, app, l, h, i).log)
    ensures LogUpTo(LedgerDeliver(world, app, l, h, i).log, world.l1FinalizedHeight(h))
  {
  }

  // ---- every base-layer input once ----

  /** The InputBox indices in the log, in log order. */
  function BoxIndices(log: seq<InputRow>): seq<nat> {
    if log == [] then []
    else
      var n := |log| - 1;
      BoxIndices(log[..n]) + if FromBox(log[n]) then [log[n].txId.eventIndex] else []
  }

  predicate AllFromBox(inputs: seq<Input>) {
    forall i | 0 <= i < |inputs| :: inputs[i].txId.FromInputBox?
  }

  function EventIndices(inputs: seq<Input>): seq<nat>
    requires AllFromBox(inputs)
  {
    seq(|inputs|, i requires 0 <= i < |inputs| => inputs[i].txId.eventIndex)
  }

  lemma {:induction false} BoxIndicesAppend(log: seq<InputRow>, rows: seq<InputRow>)
    ensures BoxIndices(log + rows) == BoxIndices(log) + BoxIndices(rows)
  {
    if rows == [] {
      assert log + rows == log;
    } else {
      var n := |rows| - 1;
      assert (log + rows)[..|log + rows| - 1] == log + rows[..n];
      BoxIndicesAppend(log, rows[..n]);
    }
  }

  lemma {:induction false} BoxIndicesOfRows(rows: seq<InputRow>, inputs: seq<Input>)
    requires |rows| == |inputs|
    requires AllFromBox(inputs)
    requires forall i | 0 <= i < |inputs| :: rows[i].txId == inputs[i].txId
    ensures BoxIndices(rows) == EventIndices(inputs)
  {
    if rows != [] {
      var n := |rows| - 1;
      BoxIndicesOfRows(rows[..n], inputs[..n]);
    }
  }

  lemma InputsComeFromBox(world: World, app: Address, startBlock: nat, endBlock: nat)
    ensures AllFromBox(InputsIn(world.inputsAdded, app, startBlock, endBlock))
  {
    InputsInMembers(world.inputsAdded, app, startBlock, endBlock);
    var inputs := InputsIn(world.inputsAdded, app, startBlock, endBlock);
    forall i | 0 <= i < |inputs| ensures inputs[i].txId.FromInputBox? {
      assert inputs[i] in inputs;
    }
  }

  /** The InputBox events of `app` in a block range, by their indices. */
  function EventsBetween(world: World, app: Address, startBlock: nat, endBlock: nat): seq<nat> {
    InputsComeFromBox(world, app, startBlock, endBlock);
    EventIndices(InputsIn(world.inputsAdded, app, startBlock, endBlock))
  }

  /** Those that move the base-layer cursor from one block to another. */
  function EventsRead(world: World, app: Address, from: nat, to: nat): seq<nat> {
    EventsBetween(world, app, from + 1, to)
  }

  lemma L1AdvanceConserves(world: World, app: Address, l: Ledger, from: nat, to: nat)
    requires world.epochLength(app) >= 1 && from <= to
    ensures BoxIndices(L1Advance(world, app, l, from, to).log)
         == BoxIndices(l.log) + EventsRead(world, app, from, to)
  {
    InputsComeFromBox(world, app, from + 1, to);
    var inputs := InputsIn(world.inputsAdded, app, from + 1, to);
    if from < to {
      var rows := RowsOf(RenumberAll(inputs, |l.log|, world.shouldModifyIndex),
                         world.epochLength(app));
      BoxIndicesOfRows(rows, inputs);
      BoxIndicesAppend(l.log, rows);
    } else {
      EmptyRange(world.inputsAdded, app, from + 1, to);
    }
  }

  lemma {:induction false} EmptyRange(
    events: seq<InputAdded>, app: Address, startBlock: nat, endBlock: nat)
    requires endBlock < startBlock
    ensures InputsIn(events, app, startBlock, endBlock) == []
  {
    if events != [] {
      EmptyRange(events[..|events| - 1], app, startBlock, endBlock);
    }
  }

  lemma EventsReadSplit(world: World, app: Address, from: nat, middle: nat, to: nat)
    requires ChainOrdered(world.inputsAdded, app) && from <= middle <= to
    ensures EventsRead(world, app, from, to)
         == EventsRead(world, app, from, middle) + EventsRead(world, app, middle, to)
  {
    InputsInSplit(world.inputsAdded, app, from + 1, middle, to);
  }

  lemma DeliverConserves(world: World, app: Address, l: Ledger, h: nat, i: nat)
    requires world.epochLength(app) >= 1 && i < |world.transactions(h)|
    ensures BoxIndices(LedgerDeliver(world, app, l, h, i).log) == BoxIndices(l.log)
  {
    if Accepts(world, app, l, h, i) {
      BoxIndicesAppend(l.log, [EspressoRow(world, app, l, h, i)]);
      assert BoxIndices([EspressoRow(world, app, l, h, i)]) == [];
    }
  }

  // ---- each nonce once ----

  /** Espresso transactions in the order they come by: block and position, repeats and all. */
  datatype Delivery = Delivery(block: nat, position: nat)

  predicate DeliveriesExist(world: World, ds: seq<Delivery>) {
    forall k | 0 <= k < |ds| :: ds[k].position < |world.transactions(ds[k].block)|
  }

  function DeliverAll(world: World, app: Address, l: Ledger, ds: seq<Delivery>): Ledger
    requires world.epochLength(app) >= 1 && DeliveriesExist(world, ds)
  {
    if ds == [] then l
    else
      var d := ds[|ds| - 1];
      LedgerDeliver(world, app, DeliverAll(world, app, l, ds[..|ds| - 1]), d.block, d.position)
  }

  /** The nonces of `sender` that were accepted, in order. */
  function AcceptedNonces(
    world: World, app: Address, l: Ledger, ds: seq<Delivery>, sender: Address): seq<nat>
    requires world.epochLength(app) >= 1 && DeliveriesExist(world, ds)
  {
    if ds == [] then []
    else
      var front, d := ds[..|ds| - 1], ds[|ds| - 1];
      var before := DeliverAll(world, app, l, front);
      var tx := world.transactions(d.block)[d.position];
      AcceptedNonces(world, app, l, front, sender)
      + if Accepts(world, app, before, d.block, d.position) && tx.sender == sender
        then [tx.nonce] else []
  }

  /** However often and in whatever order transactions come, the accepted nonces of a sender go up
      one by one from the stored nonce, and the stored nonce counts them. */
  lemma {:induction false} NoncesInOrder(
    world: World, app: Address, l: Ledger, ds: seq<Delivery>, sender: Address)
    requires world.epochLength(app) >= 1 && DeliveriesExist(world, ds)
    ensures var first := NonceIn(l.nonces, sender, app);
            var accepted := AcceptedNonces(world, app, l, ds, sender);
            && CountsFrom(accepted, first)
            && NonceIn(DeliverAll(world, app, l, ds).nonces, sender, app) == first + |accepted|
  {
    hide LedgerDeliver, Accepts, NonceIn;
    if ds != [] {
      var front, d := ds[..|ds| - 1], ds[|ds| - 1];
      NoncesInOrder(world, app, l, front, sender);
      DeliverNonce(world, app, DeliverAll(world, app, l, front), d.block, d.position, sender);
    }
  }

  lemma DeliverNonce(world: World, app: Address, l: Ledger, h: nat, i: nat, sender: Address)
    requires world.epochLength(app) >= 1 && i < |world.transactions(h)|
    ensures var tx := world.transactions(h)[i];
            var taken := Accepts(world, app, l, h, i) && tx.sender == sender;
            && (taken ==> tx.nonce == NonceIn(l.nonces, sender, app))
            && NonceIn(LedgerDeliver(world, app, l, h, i).nonces, sender, app)
                 == NonceIn(l.nonces, sender, app) + (if taken then 1 else 0)
  {
  }

  /** The same deliveries on the tables. */
  function DeliverAllTo(world: World, db: Db, app: Address, ds: seq<Delivery>): Db
    requires world.epochLength(app) >= 1 && DeliveriesExist(world, ds)
  {
    if ds == [] then db
    else
      var d := ds[|ds| - 1];
      DeliverTx(world, DeliverAllTo(world, db, app, ds[..|ds| - 1]), app, d.block, d.position)
  }

  /** So the stored nonces, and the rows that are stored, are those of the ledger. */
  lemma {:induction false} DeliverAllOnTables(world: World, db: Db, app: Address, ds: seq<Delivery>)
    requires world.epochLength(app) >= 1 && DeliveriesExist(world, ds)
    requires app in db.apps && Dense(db, app)
    ensures var after := DeliverAllTo(world, db, app, ds);
            && app in after.apps && Dense(after, app)
            && LedgerOf(after, app) == DeliverAll(world, app, LedgerOf(db, app), ds)
  {
    hide DeliverTx, LedgerDeliver, Dense;
    if ds != [] {
      var front, d := ds[..|ds| - 1], ds[|ds| - 1];
      DeliverAllOnTables(world, db, app, front);
      DeliverAtAnyHeight(world, DeliverAllTo(world, db, app, front), app, d.block, d.position);
    }
  }

  /** So no nonce of a sender is accepted at two different points of the run. */
  lemma NoNonceTwice(
    world: World, app: Address, l: Ledger, ds: seq<Delivery>, j: nat, k: nat)
    requires world.epochLength(app) >= 1 && DeliveriesExist(world, ds)
    requires j < k < |ds|
    requires var a, b := ds[j], ds[k];
             && Accepts(world, app, DeliverAll(world, app, l, ds[..j]), a.block, a.position)
             && Accepts(world, app, DeliverAll(world, app, l, ds[..k]), b.block, b.position)
    ensures var a, b := ds[j], ds[k];
            var s, t := world.transactions(a.block)[a.position],
                        world.transactions(b.block)[b.position];
            s.sender == t.sender ==> s.nonce < t.nonce
  {
    var a := ds[j];
    var s := world.transactions(a.block)[a.position];
    assert ds[..j + 1][..j] == ds[..j];
    NoncesGrow(world, app, l, ds[..k], j + 1, s.sender);
    assert ds[..k][..j + 1] == ds[..j + 1];
  }

  lemma {:induction false} NoncesGrow(
    world: World, app: Address, l: Ledger, ds: seq<Delivery>, j: nat, sender: Address)
    requires world.epochLength(app) >= 1 && DeliveriesExist(world, ds) && j <= |ds|
    ensures NonceIn(DeliverAll(world, app, l, ds[..j]).nonces, sender, app)
         <= NonceIn(DeliverAll(world, app, l, ds).nonces, sender, app)
  {
    if j == |ds| {
      assert ds[..j] == ds;
    } else {
      NoncesGrow(world, app, l, ds[..|ds| - 1], j, sender);
      assert ds[..|ds| - 1][..j] == ds[..j];
    }
  }
}
